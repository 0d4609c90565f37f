/** Node identifiers, XOR distance and the routing table. */
module Routing {
  import opened Basics
  import opened Order

  const K := 20
  const BUCKETS := 256

  type NodeId = s: seq<bv8> | |s| == 32 witness seq(32, i => 0)

  datatype Peer = Peer(id: NodeId, name: string, address: string, healthy: bool)

  // ---------------------------------------------------------------- bits and distance

  function Xor(a: bv8, b: bv8): bv8 {
    a ^ b
  }

  function XorDistance(a: NodeId, b: NodeId): (d: NodeId)
    ensures forall i :: 0 <= i < 32 ==> d[i] == Xor(a[i], b[i])
  {
    seq(32, i requires 0 <= i < 32 => Xor(a[i], b[i]))
  }

  function Mask(k: nat): bv8 {
    match k
    case 0 => 0x80
    case 1 => 0x40
    case 2 => 0x20
    case 3 => 0x10
    case 4 => 0x08
    case 5 => 0x04
    case 6 => 0x02
    case _ => 0x01
  }

  /** Bit `k` of a byte, the most significant first. */
  predicate ByteBit(b: bv8, k: nat)
    requires k < 8
  {
    b & Mask(k) != 0
  }

  predicate Bit(id: NodeId, k: nat)
    requires k < 256
  {
    ByteBit(id[k / 8], k % 8)
  }

  function LeadingZeros(b: bv8): (n: nat)
    ensures n <= 8
  {
    if b & 0x80 != 0 then 0
    else if b & 0x40 != 0 then 1
    else if b & 0x20 != 0 then 2
    else if b & 0x10 != 0 then 3
    else if b & 0x08 != 0 then 4
    else if b & 0x04 != 0 then 5
    else if b & 0x02 != 0 then 6
    else if b & 0x01 != 0 then 7
    else 8
  }

  lemma {:induction false} LeadingZerosCount(b: bv8)
    ensures b != 0 ==> LeadingZeros(b) < 8 && ByteBit(b, LeadingZeros(b))
    ensures forall k :: 0 <= k < 8 && k < LeadingZeros(b) ==> !ByteBit(b, k)
  {
  }

  lemma {:induction false} OneBit(a: bv8, b: bv8, m: bv8)
    requires m & (m - 1) == 0
    ensures Xor(a, b) & m != 0 <==> ((a & m != 0) != (b & m != 0))
  {
  }

  lemma {:induction false} MaskIsOneBit(k: nat)
    ensures Mask(k) & (Mask(k) - 1) == 0
  {
  }

  lemma {:induction false} XorBit(a: bv8, b: bv8, k: nat)
    requires k < 8
    ensures ByteBit(Xor(a, b), k) <==> ByteBit(a, k) != ByteBit(b, k)
  {
    MaskIsOneBit(k);
    hide Mask;
    OneBit(a, b, Mask(k));
    hide Xor;
  }

  lemma {:induction false} XorZero(a: bv8, b: bv8)
    ensures Xor(a, b) == 0 <==> a == b
  {
  }

  lemma {:induction false} XorCancels(a: bv8, b: bv8, c: bv8)
    requires Xor(a, b) == Xor(a, c)
    ensures b == c
  {
  }

  /** The first byte in which two identifiers differ, from `i` on. */
  function FirstDifference(d: NodeId, i: nat): (r: nat)
    requires i <= 32
    ensures i <= r <= 32
    ensures forall j :: i <= j < r ==> d[j] == 0
    ensures r < 32 ==> d[r] != 0
    decreases 32 - i
  {
    if i == 32 then 32 else if d[i] != 0 then i else FirstDifference(d, i + 1)
  }

  function BucketIndex(a: NodeId, b: NodeId): (n: nat)
    ensures n < BUCKETS
  {
    var d := XorDistance(a, b);
    var i := FirstDifference(d, 0);
    if i == 32 then 255
    else
      assert LeadingZeros(d[i]) < 8 by { LeadingZerosCount(d[i]); }
      i * 8 + LeadingZeros(d[i])
  }

  lemma {:induction false} SharedBits(a: NodeId, b: NodeId, k: nat)
    requires k < 256
    ensures Bit(a, k) == Bit(b, k) <==> !ByteBit(XorDistance(a, b)[k / 8], k % 8)
  {
    hide ByteBit;
    hide Xor;
    XorBit(a[k / 8], b[k / 8], k % 8);
  }

  lemma {:induction false} ZeroHasNoBits(k: nat)
    requires k < 8
    ensures !ByteBit(0, k)
  {
  }

  lemma {:induction false} ZeroDistance(a: NodeId, b: NodeId)
    ensures (forall j :: 0 <= j < 32 ==> XorDistance(a, b)[j] == 0) ==> a == b
  {
    hide Xor;
    forall j | 0 <= j < 32 && XorDistance(a, b)[j] == 0 ensures a[j] == b[j] {
      XorZero(a[j], b[j]);
    }
    if forall j :: 0 <= j < 32 ==> XorDistance(a, b)[j] == 0 {
      assert forall j :: 0 <= j < 32 ==> a[j] == b[j];
    }
  }

  lemma {:induction false} IndexParts(i: nat, z: nat)
    requires z < 8
    ensures (i * 8 + z) / 8 == i && (i * 8 + z) % 8 == z
  {
  }

  lemma {:induction false} EarlierParts(i: nat, z: nat, k: nat)
    requires k < i * 8 + z && z < 8
    ensures k / 8 < i || (k / 8 == i && k % 8 < z)
  {
  }

  /** The bucket of a peer is the length of the bit prefix it shares with the local identifier. */
  lemma {:induction false} BucketIsSharedPrefix(a: NodeId, b: NodeId)
    requires a != b
    ensures forall k :: 0 <= k < BucketIndex(a, b) ==> Bit(a, k) == Bit(b, k)
    ensures Bit(a, BucketIndex(a, b)) != Bit(b, BucketIndex(a, b))
  {
    hide LeadingZeros;
    hide ByteBit;
    hide Xor;
    var d := XorDistance(a, b);
    var i := FirstDifference(d, 0);
    if i == 32 {
      ZeroDistance(a, b);
      assert false;
    } else {
      LeadingZerosCount(d[i]);
      var n := BucketIndex(a, b);
      IndexParts(i, LeadingZeros(d[i]));
      SharedBits(a, b, n);
      hide Bit;
      hide BucketIndex;
      forall k | 0 <= k < n ensures Bit(a, k) == Bit(b, k) {
        SharedBits(a, b, k);
        ZeroHasNoBits(k % 8);
        EarlierParts(i, LeadingZeros(d[i]), k);
      }
    }
  }

  function Ints(d: seq<bv8>): (r: seq<int>)
    ensures |r| == |d|
  {
    if d == [] then [] else [d[0] as int] + Ints(d[1..])
  }

  lemma {:induction false} SameByte(a: bv8, b: bv8)
    requires a as int == b as int
    ensures a == b
  {
    assert (a as int) as bv8 == a && (b as int) as bv8 == b;
  }

  lemma {:induction false} IntsInjective(a: seq<bv8>, b: seq<bv8>)
    requires Ints(a) == Ints(b)
    ensures a == b
  {
    if a != [] && b != [] {
      assert Ints(a)[0] == Ints(b)[0];
      SameByte(a[0], b[0]);
      assert Ints(a)[1..] == Ints(a[1..]) && Ints(b)[1..] == Ints(b[1..]);
      IntsInjective(a[1..], b[1..]);
      assert a == [a[0]] + a[1..] && b == [b[0]] + b[1..];
    }
  }

  /** Distances compare as big-endian numbers. */
  function DistanceKey(target: NodeId, id: NodeId): seq<int> {
    Ints(XorDistance(target, id))
  }

  /** Different identifiers lie at different distances. */
  lemma {:induction false} DistancesDiffer(target: NodeId, a: NodeId, b: NodeId)
    requires DistanceKey(target, a) == DistanceKey(target, b)
    ensures a == b
  {
    hide Ints;
    hide Xor;
    IntsInjective(XorDistance(target, a), XorDistance(target, b));
    forall i | 0 <= i < 32 ensures a[i] == b[i] {
      XorCancels(target[i], a[i], b[i]);
    }
  }

  // ---------------------------------------------------------------- buckets

  datatype InsertOutcome = Inserted | Refreshed | Full(oldest: Peer) | LocalNode

  /** The first position holding `id`, or the length. */
  function Position(b: seq<Peer>, id: NodeId): (r: nat)
    ensures r <= |b|
    ensures forall i :: 0 <= i < r ==> b[i].id != id
    ensures r < |b| ==> b[r].id == id
  {
    if b == [] then 0 else if b[0].id == id then 0 else 1 + Position(b[1..], id)
  }

  function Without(b: seq<Peer>, at: nat): seq<Peer>
    requires at < |b|
  {
    b[..at] + b[at + 1..]
  }

  function InsertPeer(b: seq<Peer>, peer: Peer): (seq<Peer>, InsertOutcome) {
    var at := Position(b, peer.id);
    if at < |b| then (Without(b, at) + [peer], Refreshed)
    else if |b| >= K then (b, Full(b[0]))
    else (b + [peer], Inserted)
  }

  function RemovePeer(b: seq<Peer>, id: NodeId): (seq<Peer>, Option<Peer>) {
    var at := Position(b, id);
    if at < |b| then (Without(b, at), Some(b[at])) else (b, None)
  }

  function ReplacePeer(b: seq<Peer>, stale: NodeId, peer: Peer): (seq<Peer>, bool) {
    var (rest, removed) := RemovePeer(b, stale);
    if removed.None? then (b, false) else (InsertPeer(rest, peer).0, true)
  }

  // ---------------------------------------------------------------- the table

  datatype Table = Table(local: NodeId, buckets: seq<seq<Peer>>)

  function EmptyTable(local: NodeId): Table {
    Table(local, seq(BUCKETS, i => []))
  }

  function AddPeer(t: Table, peer: Peer): (Table, InsertOutcome)
    requires |t.buckets| == BUCKETS
  {
    if peer.id == t.local then (t, LocalNode)
    else
      var at := BucketIndex(t.local, peer.id);
      var (bucket, outcome) := InsertPeer(t.buckets[at], peer);
      (t.(buckets := t.buckets[at := bucket]), outcome)
  }

  function DropPeer(t: Table, id: NodeId): (Table, Option<Peer>)
    requires |t.buckets| == BUCKETS
  {
    if id == t.local then (t, None)
    else
      var at := BucketIndex(t.local, id);
      var (bucket, removed) := RemovePeer(t.buckets[at], id);
      (t.(buckets := t.buckets[at := bucket]), removed)
  }

  /** Every peer, bucket by bucket, each from least to most recently seen. */
  function Concat(buckets: seq<seq<Peer>>): seq<Peer> {
    if buckets == [] then [] else buckets[0] + Concat(buckets[1..])
  }

  function AllPeers(t: Table): seq<Peer> {
    Concat(t.buckets)
  }

  function ByDistance(target: NodeId): Peer -> seq<int> {
    (p: Peer) => DistanceKey(target, p.id)
  }

  function Nearest(t: Table, target: NodeId, limit: nat): seq<Peer> {
    var peers := SortBy(ByDistance(target), AllPeers(t));
    if limit < |peers| then peers[..limit] else peers
  }

  // ---------------------------------------------------------------- saving

  datatype PeerStore = PeerStore(local: NodeId, peers: seq<Peer>)

  function FromTable(t: Table): PeerStore {
    PeerStore(t.local, AllPeers(t))
  }

  function AddAll(t: Table, peers: seq<Peer>): (r: Table)
    requires |t.buckets| == BUCKETS
    ensures |r.buckets| == BUCKETS && r.local == t.local
    decreases |peers|
  {
    if peers == [] then t else AddAll(AddPeer(t, peers[0]).0, peers[1..])
  }

  function IntoTable(s: PeerStore): Table {
    AddAll(EmptyTable(s.local), s.peers)
  }
}
