/** The routing table over every run, nearest peers, and saving. */
module RoutingTheorems {
  import opened Basics
  import opened Order
  import opened Routing

  ghost predicate IdsApart(b: seq<Peer>) {
    forall i, j :: 0 <= i < j < |b| ==> b[i].id != b[j].id
  }

  /** A bucket at index `n`: few, distinct peers that share exactly `n` bits with the local node. */
  ghost predicate GoodBucket(local: NodeId, n: nat, b: seq<Peer>) {
    && |b| <= K
    && IdsApart(b)
    && forall p :: p in b ==> p.id != local && BucketIndex(local, p.id) == n
  }

  ghost predicate Inv(t: Table) {
    && |t.buckets| == BUCKETS
    && forall n :: 0 <= n < BUCKETS ==> GoodBucket(t.local, n, t.buckets[n])
  }

  // ---------------------------------------------------------------- buckets

  lemma {:induction false} WithoutMembers(b: seq<Peer>, at: nat)
    requires at < |b| && IdsApart(b)
    ensures IdsApart(Without(b, at))
    ensures forall p :: p in Without(b, at) <==> p in b && p.id != b[at].id
  {
    var r := Without(b, at);
    forall p | p in b && p.id != b[at].id ensures p in r {
      var i :| 0 <= i < |b| && b[i] == p;
      assert if i < at then r[i] == p else r[i - 1] == p;
    }
  }

  lemma {:induction false} AppendApart(b: seq<Peer>, peer: Peer)
    requires IdsApart(b) && forall p :: p in b ==> p.id != peer.id
    ensures IdsApart(b + [peer])
  {
    forall i | 0 <= i < |b| ensures b[i].id != peer.id {
      assert b[i] in b;
    }
  }

  /** Insertion puts the peer last, keeps every other peer, and never stores one identifier twice; a
      full bucket refuses strangers unchanged and names its least recently seen peer. */
  lemma {:induction false} InsertKeepsBucket(local: NodeId, n: nat, b: seq<Peer>, peer: Peer)
    requires GoodBucket(local, n, b) && peer.id != local && BucketIndex(local, peer.id) == n
    ensures var (r, o) := InsertPeer(b, peer);
      && GoodBucket(local, n, r)
      && (o.Refreshed? <==> exists p :: p in b && p.id == peer.id)
      && (o.Full? <==> |b| == K && forall p :: p in b ==> p.id != peer.id)
      && (o.Full? ==> r == b && o.oldest == b[0])
      && (!o.Full? ==> r != [] && r[|r| - 1] == peer)
      && (!o.Full? ==> forall p :: p in r <==> p == peer || (p in b && p.id != peer.id))
  {
    hide BucketIndex;
    var at := Position(b, peer.id);
    if at < |b| {
      assert b[at] in b;
      WithoutMembers(b, at);
      AppendApart(Without(b, at), peer);
    } else {
      forall p | p in b ensures p.id != peer.id {
      }
      if |b| < K {
        AppendApart(b, peer);
      }
    }
  }

  lemma {:induction false} RemoveKeepsBucket(local: NodeId, n: nat, b: seq<Peer>, id: NodeId)
    requires GoodBucket(local, n, b)
    ensures var (r, o) := RemovePeer(b, id);
      && GoodBucket(local, n, r)
      && (o.Some? ==> o.value in b && o.value.id == id)
      && (o.None? ==> r == b)
      && forall p :: p in r <==> p in b && p.id != id
  {
    hide BucketIndex;
    var at := Position(b, id);
    if at < |b| {
      WithoutMembers(b, at);
    }
  }

  /** Replacing a stale peer frees exactly its place. */
  lemma {:induction false} ReplaceKeepsBucket(local: NodeId, n: nat, b: seq<Peer>, stale: NodeId, peer: Peer)
    requires GoodBucket(local, n, b) && peer.id != local && BucketIndex(local, peer.id) == n
    ensures var (r, ok) := ReplacePeer(b, stale, peer);
      && GoodBucket(local, n, r)
      && (ok <==> exists p :: p in b && p.id == stale)
      && (!ok ==> r == b)
      && (ok ==> forall p :: p in r <==> p == peer || (p in b && p.id != stale && p.id != peer.id))
  {
    var (rest, removed) := RemovePeer(b, stale);
    RemoveKeepsBucket(local, n, b, stale);
    if removed.Some? {
      assert |rest| < |b|;
      InsertKeepsBucket(local, n, rest, peer);
    } else {
      forall p | p in b ensures p.id != stale {
      }
    }
  }

  // ---------------------------------------------------------------- adding and removing

  /** The peers with another identifier, in their order. */
  function Others(s: seq<Peer>, id: NodeId): seq<Peer> {
    if s == [] then []
    else if s[0].id == id then Others(s[1..], id)
    else [s[0]] + Others(s[1..], id)
  }

  lemma {:induction false} OthersJoin(a: seq<Peer>, b: seq<Peer>, id: NodeId)
    ensures Others(a + b, id) == Others(a, id) + Others(b, id)
  {
    if a == [] {
      assert a + b == b;
    } else {
      assert (a + b)[0] == a[0] && (a + b)[1..] == a[1..] + b;
      OthersJoin(a[1..], b, id);
    }
  }

  lemma {:induction false} OthersAll(s: seq<Peer>, id: NodeId)
    requires forall p :: p in s ==> p.id != id
    ensures Others(s, id) == s
  {
    if s != [] {
      OthersAll(s[1..], id);
    }
  }

  lemma {:induction false} OthersMembers(s: seq<Peer>, id: NodeId)
    ensures forall p :: p in Others(s, id) <==> p in s && p.id != id
  {
    if s != [] {
      OthersMembers(s[1..], id);
      assert s == [s[0]] + s[1..];
    }
  }

  lemma {:induction false} OthersWithout(b: seq<Peer>, at: nat)
    requires at < |b| && IdsApart(b)
    ensures Others(b, b[at].id) == b[..at] + b[at + 1..]
  {
    if at == 0 {
      forall p | p in b[1..] ensures p.id != b[0].id {
        var i :| 0 <= i < |b[1..]| && b[1..][i] == p;
        assert b[i + 1] == p;
      }
      OthersAll(b[1..], b[0].id);
    } else {
      assert b[1..][at - 1] == b[at];
      OthersWithout(b[1..], at - 1);
      assert b[..at] + b[at + 1..] == [b[0]] + (b[1..][..at - 1] + b[1..][at..]);
    }
  }

  lemma {:induction false} RemovalIsOthers(b: seq<Peer>, id: NodeId)
    requires IdsApart(b)
    ensures RemovePeer(b, id).0 == Others(b, id)
    ensures RemovePeer(b, id).1.Some? <==> exists p :: p in b && p.id == id
    ensures RemovePeer(b, id).1.Some? ==> RemovePeer(b, id).1.value in b && RemovePeer(b, id).1.value.id == id
  {
    var at := Position(b, id);
    if at < |b| {
      assert b[at] in b;
      OthersWithout(b, at);
      hide IdsApart;
      hide Others;
      assert Without(b, at) == b[..at] + b[at + 1..];
    } else {
      forall p | p in b ensures p.id != id {
      }
      OthersAll(b, id);
    }
  }

  /** Bucket by bucket, `after` is `before` without the peer `id`. */
  lemma {:induction false} ConcatOthers(before: seq<seq<Peer>>, after: seq<seq<Peer>>, id: NodeId)
    requires |before| == |after| && forall i :: 0 <= i < |before| ==> after[i] == Others(before[i], id)
    ensures Concat(after) == Others(Concat(before), id)
  {
    if before != [] {
      ConcatOthers(before[1..], after[1..], id);
      OthersJoin(before[0], Concat(before[1..]), id);
    }
  }

  lemma {:induction false} InConcat(buckets: seq<seq<Peer>>, p: Peer)
    ensures p in Concat(buckets) <==> exists i :: 0 <= i < |buckets| && p in buckets[i]
  {
    if buckets != [] {
      InConcat(buckets[1..], p);
      if i :| 0 <= i < |buckets[1..]| && p in buckets[1..][i] {
        assert p in buckets[i + 1];
      }
      if i :| 0 < i < |buckets| && p in buckets[i] {
        assert p in buckets[1..][i - 1];
      }
    }
  }

  lemma {:induction false} HomeBucket(t: Table, p: Peer)
    requires Inv(t) && p in AllPeers(t)
    ensures p.id != t.local && p in t.buckets[BucketIndex(t.local, p.id)]
  {
    hide BucketIndex;
    InConcat(t.buckets, p);
    var i :| 0 <= i < |t.buckets| && p in t.buckets[i];
    assert GoodBucket(t.local, i, t.buckets[i]);
  }

  /** After a removal no peer of the table has that identifier, all others stay in their order, and the answer
      is the peer that was there. */
  lemma {:induction false} RemovedPeersAreGone(t: Table, id: NodeId)
    requires Inv(t)
    ensures var (r, removed) := DropPeer(t, id);
      && r.local == t.local && AllPeers(r) == Others(AllPeers(t), id)
      && (forall p :: p in AllPeers(r) <==> p in AllPeers(t) && p.id != id)
      && (removed.Some? <==> exists p :: p in AllPeers(t) && p.id == id)
      && (removed.Some? ==> removed.value in AllPeers(t) && removed.value.id == id)
  {
    OthersMembers(AllPeers(t), id);
    if id == t.local {
      forall p | p in AllPeers(t) ensures p.id != id {
        HomeBucket(t, p);
      }
      hide Concat;
      OthersAll(AllPeers(t), id);
    } else {
      var (r, removed) := DropPeer(t, id);
      var at := BucketIndex(t.local, id);
      hide BucketIndex;
      assert GoodBucket(t.local, at, t.buckets[at]);
      RemovalIsOthers(t.buckets[at], id);
      forall i | 0 <= i < |t.buckets| ensures r.buckets[i] == Others(t.buckets[i], id) {
        if i != at {
          assert GoodBucket(t.local, i, t.buckets[i]);
          OthersAll(t.buckets[i], id);
        }
      }
      ConcatOthers(t.buckets, r.buckets, id);
      RemovalAnswers(t, id, removed);
    }
  }

  lemma {:induction false} RemovalAnswers(t: Table, id: NodeId, removed: Option<Peer>)
    requires Inv(t) && id != t.local
    requires var b := t.buckets[BucketIndex(t.local, id)];
      && (removed.Some? <==> exists p :: p in b && p.id == id)
      && (removed.Some? ==> removed.value in b && removed.value.id == id)
    ensures removed.Some? <==> exists p :: p in AllPeers(t) && p.id == id
    ensures removed.Some? ==> removed.value in AllPeers(t)
  {
    if removed.Some? {
      InConcat(t.buckets, removed.value);
    }
    if p :| p in AllPeers(t) && p.id == id {
      HomeBucket(t, p);
    }
  }

  /** Adding a peer puts it in the table unless it is the node itself or its bucket is full of others; every
      peer with another identifier stays. */
  lemma {:induction false} AddedPeersAreThere(t: Table, peer: Peer)
    requires Inv(t)
    ensures var (r, o) := AddPeer(t, peer);
      && (o.LocalNode? <==> peer.id == t.local)
      && (o.LocalNode? || o.Full? ==> r == t)
      && (o.Refreshed? <==> exists p :: p in AllPeers(t) && p.id == peer.id)
      && (o.Inserted? || o.Refreshed? ==>
            forall p :: p in AllPeers(r) <==> p == peer || (p in AllPeers(t) && p.id != peer.id))
  {
    var (r, o) := AddPeer(t, peer);
    if peer.id == t.local {
      forall p | p in AllPeers(t) ensures p.id != peer.id {
        HomeBucket(t, p);
      }
    } else {
      var at := BucketIndex(t.local, peer.id);
      assert GoodBucket(t.local, at, t.buckets[at]);
      InsertKeepsBucket(t.local, at, t.buckets[at], peer);
      assert o.Full? ==> r == t;
      SameIdentifier(t, peer.id);
      hide InsertPeer;
      forall p ensures !o.Full? ==> (p in AllPeers(r) <==> p == peer || (p in AllPeers(t) && p.id != peer.id)) {
        InConcat(t.buckets, p);
        InConcat(r.buckets, p);
        if !o.Full? {
          AddedMember(t, r, at, peer, p);
        }
      }
    }
  }

  lemma {:induction false} SameIdentifier(t: Table, id: NodeId)
    requires Inv(t) && id != t.local
    ensures (exists p :: p in AllPeers(t) && p.id == id)
      <==> (exists p :: p in t.buckets[BucketIndex(t.local, id)] && p.id == id)
  {
    if p :| p in AllPeers(t) && p.id == id {
      HomeBucket(t, p);
    }
    if p :| p in t.buckets[BucketIndex(t.local, id)] && p.id == id {
      InConcat(t.buckets, p);
    }
  }

  lemma {:induction false} AddedMember(t: Table, r: Table, at: nat, peer: Peer, p: Peer)
    requires Inv(t) && at == BucketIndex(t.local, peer.id) && at < |t.buckets| && peer.id != t.local
    requires |r.buckets| == |t.buckets| && forall i :: 0 <= i < |t.buckets| && i != at ==> r.buckets[i] == t.buckets[i]
    requires forall q :: q in r.buckets[at] <==> q == peer || (q in t.buckets[at] && q.id != peer.id)
    ensures (exists i :: 0 <= i < |r.buckets| && p in r.buckets[i])
      <==> p == peer || ((exists i :: 0 <= i < |t.buckets| && p in t.buckets[i]) && p.id != peer.id)
  {
    hide BucketIndex;
    if i :| 0 <= i < |r.buckets| && p in r.buckets[i] {
      assert GoodBucket(t.local, i, t.buckets[i]);
      assert i != at ==> p in t.buckets[i];
    }
    if i :| 0 <= i < |t.buckets| && p in t.buckets[i] && p.id != peer.id {
      assert p in r.buckets[i];
    }
    if p == peer {
      assert p in r.buckets[at];
    }
  }

  // ---------------------------------------------------------------- every run

  datatype Op = Add(peer: Peer) | Remove(id: NodeId)

  ghost function Step(t: Table, op: Op): (r: Table)
    requires |t.buckets| == BUCKETS
    ensures |r.buckets| == BUCKETS && r.local == t.local
  {
    match op
    case Add(peer) => AddPeer(t, peer).0
    case Remove(id) => DropPeer(t, id).0
  }

  ghost function Run(local: NodeId, ops: seq<Op>): (t: Table)
    ensures |t.buckets| == BUCKETS && t.local == local
  {
    if ops == [] then EmptyTable(local) else Step(Run(local, ops[..|ops| - 1]), ops[|ops| - 1])
  }

  lemma {:induction false} StepKeepsInv(t: Table, op: Op)
    requires Inv(t)
    ensures Inv(Step(t, op))
  {
    hide GoodBucket;
    hide BucketIndex;
    match op
    case Add(peer) =>
      if peer.id != t.local {
        var n := BucketIndex(t.local, peer.id);
        InsertKeepsBucket(t.local, n, t.buckets[n], peer);
        hide InsertPeer;
      }
    case Remove(id) =>
      if id != t.local {
        var n := BucketIndex(t.local, id);
        RemoveKeepsBucket(t.local, n, t.buckets[n], id);
        hide RemovePeer;
      }
  }

  /** In every table built by adding and removing, peers sit in the bucket of their shared prefix,
      identifiers are unique, buckets hold at most 20 and the local node never appears. */
  lemma {:induction false} EveryTableIsGood(local: NodeId, ops: seq<Op>)
    ensures Inv(Run(local, ops))
  {
    hide BucketIndex;
    if ops != [] {
      EveryTableIsGood(local, ops[..|ops| - 1]);
      StepKeepsInv(Run(local, ops[..|ops| - 1]), ops[|ops| - 1]);
    }
  }

  // ---------------------------------------------------------------- all peers

  ghost predicate Placed(local: NodeId, n: nat, buckets: seq<seq<Peer>>) {
    forall i :: 0 <= i < |buckets| ==> GoodBucket(local, n + i, buckets[i])
  }

  lemma {:induction false} ConcatPlaced(local: NodeId, n: nat, buckets: seq<seq<Peer>>)
    requires Placed(local, n, buckets)
    ensures IdsApart(Concat(buckets))
    ensures forall p :: p in Concat(buckets) ==> p.id != local && BucketIndex(local, p.id) >= n
    decreases |buckets|
  {
    hide BucketIndex;
    if buckets != [] {
      assert forall i :: 0 <= i < |buckets[1..]| ==> buckets[1..][i] == buckets[i + 1];
      assert GoodBucket(local, n + 0, buckets[0]);
      ConcatPlaced(local, n + 1, buckets[1..]);
      JoinApart(local, n, buckets[0], Concat(buckets[1..]));
    }
  }

  lemma {:induction false} JoinApart(local: NodeId, n: nat, a: seq<Peer>, b: seq<Peer>)
    requires GoodBucket(local, n, a) && IdsApart(b)
    requires forall p :: p in b ==> BucketIndex(local, p.id) > n
    ensures IdsApart(a + b)
  {
    hide BucketIndex;
    forall i, j | 0 <= i < j < |a + b| ensures (a + b)[i].id != (a + b)[j].id {
      if i < |a| && j >= |a| {
        assert (a + b)[i] in a && (a + b)[j] in b;
      }
    }
  }

  lemma {:induction false} PeersAreUnique(t: Table)
    requires Inv(t)
    ensures IdsApart(AllPeers(t))
    ensures forall p :: p in AllPeers(t) ==> p.id != t.local
  {
    hide GoodBucket;
    ConcatPlaced(t.local, 0, t.buckets);
  }

  // ---------------------------------------------------------------- nearest

  ghost predicate Closer(target: NodeId, a: Peer, b: Peer) {
    Less(DistanceKey(target, a.id), DistanceKey(target, b.id))
  }

  lemma {:induction false} SortedPeers(peers: seq<Peer>, target: NodeId)
    requires IdsApart(peers)
    ensures var s := SortBy(ByDistance(target), peers);
      && multiset(s) == multiset(peers)
      && forall i, j :: 0 <= i < j < |s| ==> Closer(target, s[i], s[j])
  {
    hide Less;
    hide DistanceKey;
    var key := ByDistance(target);
    var s := SortBy(key, peers);
    SortBySorted(key, peers);
    hide SortBy;
    var clash := (a: Peer, b: Peer) => a.id == b.id;
    assert Apart(clash, peers);
    ApartPermuted(clash, peers, s);
    forall i, j | 0 <= i < j < |s| ensures Closer(target, s[i], s[j]) {
      assert !clash(s[i], s[j]);
      assert !Less(key(s[j]), key(s[i]));
      LessTotal(key(s[i]), key(s[j]));
      if key(s[i]) == key(s[j]) {
        DistancesDiffer(target, s[i].id, s[j].id);
      }
    }
  }

  /** `nearest` is exactly the `limit` closest peers, in strictly increasing distance. */
  lemma {:induction false} NearestAreClosest(t: Table, target: NodeId, limit: nat)
    requires Inv(t)
    ensures var r := Nearest(t, target, limit);
      && |r| == (if limit < |AllPeers(t)| then limit else |AllPeers(t)|)
      && (forall i, j :: 0 <= i < j < |r| ==> Closer(target, r[i], r[j]))
      && (forall p :: p in r ==> p in AllPeers(t))
      && (forall p, q :: p in r && q in AllPeers(t) && q !in r ==> Closer(target, p, q))
  {
    hide Closer;
    hide Inv;
    hide ByDistance;
    PeersAreUnique(t);
    SortedPeers(AllPeers(t), target);
    hide IdsApart;
    var s := SortBy(ByDistance(target), AllPeers(t));
    hide SortBy;
    hide AllPeers;
    PrefixClosest(target, AllPeers(t), s, |Nearest(t, target, limit)|);
    assert s[..|s|] == s;
  }

  lemma {:induction false} PrefixClosest(target: NodeId, all: seq<Peer>, s: seq<Peer>, n: nat)
    requires multiset(s) == multiset(all) && n <= |s|
    requires forall i, j :: 0 <= i < j < |s| ==> Closer(target, s[i], s[j])
    ensures forall p :: p in s[..n] ==> p in all
    ensures forall p, q :: p in s[..n] && q in all && q !in s[..n] ==> Closer(target, p, q)
  {
    hide Closer;
    var r := s[..n];
    forall p | p in r ensures p in all {
      SameMembers(s, all, p);
    }
    assert forall k :: 0 <= k < |r| ==> s[k] in r;
    forall p, q | p in r && q in all && q !in r ensures Closer(target, p, q) {
      SameMembers(s, all, q);
      var i :| 0 <= i < |r| && r[i] == p;
      var j :| 0 <= j < |s| && s[j] == q;
      assert j >= |r| && s[i] == p;
    }
  }

  // ---------------------------------------------------------------- saving

  lemma {:induction false} AddAllJoin(t: Table, a: seq<Peer>, b: seq<Peer>)
    requires |t.buckets| == BUCKETS
    ensures AddAll(t, a + b) == AddAll(AddAll(t, a), b)
    decreases |a|
  {
    hide AddPeer;
    if a == [] {
      assert a + b == b;
    } else {
      assert (a + b)[0] == a[0] && (a + b)[1..] == a[1..] + b;
      AddPeerSize(t, a[0]);
      AddAllJoin(AddPeer(t, a[0]).0, a[1..], b);
    }
  }

  lemma {:induction false} AddPeerSize(t: Table, peer: Peer)
    requires |t.buckets| == BUCKETS
    ensures |AddPeer(t, peer).0.buckets| == BUCKETS
  {
    hide BucketIndex;
    hide InsertPeer;
  }

  /** Refilling one bucket in order of recency restores it. */
  lemma {:induction false} RefillBucket(t: Table, n: nat, b: seq<Peer>, i: nat)
    requires |t.buckets| == BUCKETS && n < BUCKETS && GoodBucket(t.local, n, b) && i <= |b|
    requires t.buckets[n] == b[..i]
    ensures AddAll(t, b[i..]) == t.(buckets := t.buckets[n := b])
    decreases |b| - i
  {
    hide BucketIndex;
    if i == |b| {
      assert b[..i] == b && t.buckets[n := b] == t.buckets;
    } else {
      var p := b[i];
      assert p in b;
      assert Position(b[..i], p.id) == i;
      assert b[..i] + [p] == b[..i + 1];
      var next := t.(buckets := t.buckets[n := b[..i + 1]]);
      assert AddPeer(t, p).0 == next;
      assert b[i..][0] == p && b[i..][1..] == b[i + 1..];
      hide GoodBucket;
      hide AddPeer;
      RefillBucket(next, n, b, i + 1);
      assert next.buckets[n := b] == t.buckets[n := b];
    }
  }

  ghost function Partly(t: Table, n: nat): Table
    requires |t.buckets| == BUCKETS && n <= BUCKETS
  {
    Table(t.local, t.buckets[..n] + seq(BUCKETS - n, i => []))
  }

  lemma {:induction false} PartlyNext(t: Table, n: nat)
    requires |t.buckets| == BUCKETS && n < BUCKETS
    ensures Partly(t, n).buckets[n] == []
    ensures Partly(t, n).(buckets := Partly(t, n).buckets[n := t.buckets[n]]) == Partly(t, n + 1)
    ensures |Partly(t, n).buckets| == BUCKETS
  {
  }

  lemma {:induction false} Refill(t: Table, n: nat)
    requires Inv(t) && n <= BUCKETS
    ensures AddAll(Partly(t, n), Concat(t.buckets[n..])) == t
    decreases BUCKETS - n
  {
    if n == BUCKETS {
      assert Partly(t, n).buckets == t.buckets;
    } else {
      var b := t.buckets[n];
      var here := Partly(t, n);
      assert t.buckets[n..][0] == b && t.buckets[n..][1..] == t.buckets[n + 1..];
      assert GoodBucket(t.local, n, b);
      hide GoodBucket;
      hide AddAll;
      PartlyNext(t, n);
      assert here.local == t.local;
      hide Partly;
      assert b[0..] == b && b[..0] == [];
      RefillBucket(here, n, b, 0);
      AddAllJoin(here, b, Concat(t.buckets[n + 1..]));
      Refill(t, n + 1);
    }
  }

  /** Saving a table and rebuilding it gives the same table, recency order included. */
  lemma {:induction false} StoreRoundTrip(t: Table)
    requires Inv(t)
    ensures IntoTable(FromTable(t)) == t
  {
    hide GoodBucket;
    hide AddAll;
    assert t.buckets[0..] == t.buckets;
    assert Partly(t, 0) == EmptyTable(t.local);
    Refill(t, 0);
  }
}
