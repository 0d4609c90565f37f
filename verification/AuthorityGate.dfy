/** Inbound authority as a state machine: every operation runs under one mutex, so one operation is
    one step. */
module AuthorityGate {
  import opened Basics

  const GLOBAL_SESSIONS := 1024
  const PEER_SESSIONS := 64
  const CONNECTION_SESSIONS := 64
  const PEER_GENERATIONS := 1024

  /** A parsed eight-byte fingerprint. */
  type Peer = seq<Byte>

  datatype PeerAuthority = Authorized | RuntimeDenied
  datatype Generation = Generation(number: U64, state: PeerAuthority)
  datatype Transport = Tcp | Quic(connection: U64)
  datatype Ticket = Ticket(peer: Peer, generation: U64, epoch: U64)
  datatype Entry = Entry(ticket: Ticket, transport: Transport, active: bool, cancelled: bool)

  datatype Gate = Gate(
    epoch: U64,
    locked: bool,
    next: U64,
    peers: map<Peer, Generation>,
    sessions: map<U64, Entry>)
  {
    /** Whether a ticket authorizes work now. */
    predicate Current(t: Ticket) {
      && !locked
      && epoch == t.epoch
      && t.peer in peers
      && peers[t.peer].number == t.generation
      && peers[t.peer].state == Authorized
    }
  }

  function Initial(locked: bool): Gate {
    Gate(1, locked, 1, map[], map[])
  }

  /** Operations; a peer is `None` when the given fingerprint text does not parse. */
  datatype Op =
    | Connection
    | IssueTicket(peer: Option<Peer>)
    | Reserve(ticket: Ticket, transport: Transport)
    | Deny(peer: Option<Peer>)
    | Removed(peer: Option<Peer>)
    | Lock
    | Open(expected: U64)
    | Publish(id: U64)
    | Submit(id: U64)
    | DropLease(id: U64)

  datatype Reply =
    | Rejected
    | Done
    | Identifier(id: U64)
    | Issued(ticket: Ticket)
    | Epoch(epoch: U64)

  function SessionsOf(sessions: map<U64, Entry>, peer: Peer): set<U64> {
    set id | id in sessions && sessions[id].ticket.peer == peer
  }

  function SessionsOver(sessions: map<U64, Entry>, transport: Transport): set<U64> {
    set id | id in sessions && sessions[id].transport == transport
  }

  function Cancel(sessions: map<U64, Entry>, peer: Option<Peer>): map<U64, Entry> {
    map id | id in sessions ::
      if peer.None? || sessions[id].ticket.peer == peer.value then sessions[id].(cancelled := true) else sessions[id]
  }

  /** Room for one more session under all three quotas. */
  predicate RoomFor(g: Gate, ticket: Ticket, transport: Transport) {
    && |g.sessions| < GLOBAL_SESSIONS
    && |SessionsOf(g.sessions, ticket.peer)| < PEER_SESSIONS
    && (transport.Quic? ==> |SessionsOver(g.sessions, transport)| < CONNECTION_SESSIONS)
  }

  /** The peer's generation, allocated in `state` when the peer has none. */
  function WithGeneration(g: Gate, peer: Peer, state: PeerAuthority): Option<Gate> {
    if peer in g.peers then Some(g)
    else if |g.peers| >= PEER_GENERATIONS || g.next == U64_MAX then None
    else Some(g.(next := g.next + 1, peers := g.peers[peer := Generation(g.next, state)]))
  }

  function Step(g: Gate, op: Op): (Gate, Reply) {
    match op
    case Connection =>
      if g.next == U64_MAX then (g, Rejected) else (g.(next := g.next + 1), Identifier(g.next))
    case IssueTicket(peer) => StepTicket(g, peer)
    case Reserve(ticket, transport) =>
      if !g.Current(ticket) || !RoomFor(g, ticket, transport) || g.next == U64_MAX then (g, Rejected)
      else
        (g.(next := g.next + 1, sessions := g.sessions[g.next := Entry(ticket, transport, false, false)]),
         Identifier(g.next))
    case Deny(peer) => StepDeny(g, peer)
    case Removed(peer) =>
      if peer.None? || peer.value !in g.peers || g.peers[peer.value].state != RuntimeDenied then (g, Rejected)
      else (g.(peers := g.peers - {peer.value}), Done)
    case Lock =>
      var locked := g.(locked := true, sessions := Cancel(g.sessions, None));
      if g.epoch == U64_MAX then (locked, Rejected)
      else (locked.(epoch := g.epoch + 1), Epoch(g.epoch + 1))
    case Open(expected) =>
      if g.epoch != expected || g.epoch == U64_MAX then (g, Rejected)
      else (g.(epoch := g.epoch + 1, locked := false), Done)
    case Publish(id) =>
      if id !in g.sessions || !g.Current(g.sessions[id].ticket) then (g, Rejected)
      else (g.(sessions := g.sessions[id := g.sessions[id].(active := true)]), Done)
    case Submit(id) =>
      if id !in g.sessions || !g.Current(g.sessions[id].ticket) then (g, Rejected) else (g, Done)
    case DropLease(id) => (g.(sessions := g.sessions - {id}), Done)
  }

  function StepTicket(g: Gate, peer: Option<Peer>): (Gate, Reply) {
    if peer.None? || g.locked then (g, Rejected)
    else match WithGeneration(g, peer.value, Authorized)
      case None => (g, Rejected)
      case Some(g') =>
        if peer.value in g'.peers && g'.peers[peer.value].state == Authorized
        then (g', Issued(Ticket(peer.value, g'.peers[peer.value].number, g'.epoch)))
        else (g', Rejected)
  }

  function StepDeny(g: Gate, peer: Option<Peer>): (Gate, Reply) {
    if peer.None? then (g, Rejected)
    else match WithGeneration(g, peer.value, RuntimeDenied)
      case None => (g, Rejected)
      case Some(g') =>
        if peer.value !in g'.peers then (g', Rejected)
        else
          (g'.(peers := g'.peers[peer.value := g'.peers[peer.value].(state := RuntimeDenied)],
               sessions := Cancel(g'.sessions, peer)),
           Done)
  }

  ghost function Run(g: Gate, ops: seq<Op>): Gate {
    if ops == [] then g else Step(Run(g, ops[..|ops| - 1]), ops[|ops| - 1]).0
  }

  // ---------------------------------------------------------------- the registry invariant

  /** A session still uncancelled belongs to its peer's live generation, and the gate is open. */
  ghost predicate Covered(g: Gate, e: Entry) {
    !e.cancelled ==>
      && !g.locked
      && e.ticket.peer in g.peers
      && g.peers[e.ticket.peer] == Generation(e.ticket.generation, Authorized)
  }

  /** Generation numbers are below the counter and belong to one peer each. */
  ghost predicate Numbered(peers: map<Peer, Generation>, next: U64) {
    && (forall p :: p in peers ==> peers[p].number < next)
    && (forall p, q :: p in peers && q in peers && peers[p].number == peers[q].number ==> p == q)
  }

  ghost predicate Registered(g: Gate, id: U64)
    requires id in g.sessions
  {
    id < g.next && Issuable(g, g.sessions[id].ticket) && Covered(g, g.sessions[id])
  }

  ghost predicate WithinQuotas(g: Gate) {
    && |g.peers| <= PEER_GENERATIONS
    && |g.sessions| <= GLOBAL_SESSIONS
    && (forall p :: |SessionsOf(g.sessions, p)| <= PEER_SESSIONS)
    && (forall t: Transport :: t.Quic? ==> |SessionsOver(g.sessions, t)| <= CONNECTION_SESSIONS)
  }

  ghost predicate Inv(g: Gate) {
    && Numbered(g.peers, g.next)
    && WithinQuotas(g)
    && (forall id :: id in g.sessions ==> Registered(g, id))
  }

  /** A ticket that may have been issued by now. */
  predicate Issuable(g: Gate, t: Ticket) {
    t.generation < g.next && t.epoch <= g.epoch
  }

  lemma {:induction false} SubsetSize<T>(a: set<T>, b: set<T>)
    requires a <= b
    ensures |a| <= |b|
  {
    if a != {} {
      var x :| x in a;
      SubsetSize(a - {x}, b - {x});
    }
  }

  /** Changing flags of entries, or dropping entries, exceeds no quota. */
  lemma {:induction false} QuotasKept(g: Gate, h: Gate)
    requires WithinQuotas(g) && h.peers.Keys <= g.peers.Keys && h.sessions.Keys <= g.sessions.Keys
    requires forall id :: id in h.sessions ==>
      h.sessions[id].ticket == g.sessions[id].ticket && h.sessions[id].transport == g.sessions[id].transport
    ensures WithinQuotas(h)
  {
    SubsetSize(h.peers.Keys, g.peers.Keys);
    SubsetSize(h.sessions.Keys, g.sessions.Keys);
    forall p ensures |SessionsOf(h.sessions, p)| <= PEER_SESSIONS {
      SubsetSize(SessionsOf(h.sessions, p), SessionsOf(g.sessions, p));
    }
    forall t: Transport | t.Quic? ensures |SessionsOver(h.sessions, t)| <= CONNECTION_SESSIONS {
      SubsetSize(SessionsOver(h.sessions, t), SessionsOver(g.sessions, t));
    }
  }

  lemma {:induction false} OneMoreOf(sessions: map<U64, Entry>, id: U64, e: Entry, p: Peer)
    requires id !in sessions
    ensures |SessionsOf(sessions[id := e], p)| == |SessionsOf(sessions, p)| + (if p == e.ticket.peer then 1 else 0)
  {
    if p == e.ticket.peer {
      assert SessionsOf(sessions[id := e], p) == SessionsOf(sessions, p) + {id};
    } else {
      assert SessionsOf(sessions[id := e], p) == SessionsOf(sessions, p);
    }
  }

  lemma {:induction false} OneMoreOver(sessions: map<U64, Entry>, id: U64, e: Entry, t: Transport)
    requires id !in sessions
    ensures |SessionsOver(sessions[id := e], t)| == |SessionsOver(sessions, t)| + (if t == e.transport then 1 else 0)
  {
    if t == e.transport {
      assert SessionsOver(sessions[id := e], t) == SessionsOver(sessions, t) + {id};
    } else {
      assert SessionsOver(sessions[id := e], t) == SessionsOver(sessions, t);
    }
  }

  lemma {:induction false} ReserveKeepsQuotas(g: Gate, ticket: Ticket, transport: Transport)
    requires WithinQuotas(g) && RoomFor(g, ticket, transport) && g.next !in g.sessions
    ensures WithinQuotas(g.(sessions := g.sessions[g.next := Entry(ticket, transport, false, false)]))
  {
    hide SessionsOf;
    hide SessionsOver;
    var e := Entry(ticket, transport, false, false);
    var sessions := g.sessions[g.next := e];
    assert sessions.Keys == g.sessions.Keys + {g.next};
    forall p ensures |SessionsOf(sessions, p)| <= PEER_SESSIONS {
      OneMoreOf(g.sessions, g.next, e, p);
    }
    forall t: Transport | t.Quic? ensures |SessionsOver(sessions, t)| <= CONNECTION_SESSIONS {
      OneMoreOver(g.sessions, g.next, e, t);
    }
  }

  lemma {:induction false} NumberedNext(peers: map<Peer, Generation>, next: U64, peer: Peer, state: PeerAuthority)
    requires Numbered(peers, next) && peer !in peers && next < U64_MAX
    ensures Numbered(peers[peer := Generation(next, state)], next + 1)
  {
  }

  lemma {:induction false} PeerQuotaKept(g: Gate, h: Gate)
    requires WithinQuotas(g) && h.sessions == g.sessions && |h.peers| <= PEER_GENERATIONS
    ensures WithinQuotas(h)
  {
    hide SessionsOf;
    hide SessionsOver;
  }

  lemma {:induction false} AddedPeer(peers: map<Peer, Generation>, peer: Peer, generation: Generation)
    requires peer !in peers
    ensures |peers[peer := generation]| == |peers| + 1
  {
    assert peers[peer := generation].Keys == peers.Keys + {peer};
  }

  lemma {:induction false} AllocateKeepsInv(g: Gate, peer: Peer, state: PeerAuthority)
    requires Inv(g) && WithGeneration(g, peer, state).Some?
    ensures Inv(WithGeneration(g, peer, state).value) && peer in WithGeneration(g, peer, state).value.peers
  {
    hide Numbered;
    hide WithinQuotas;
    if peer !in g.peers {
      var h := g.(next := g.next + 1, peers := g.peers[peer := Generation(g.next, state)]);
      assert WithGeneration(g, peer, state) == Some(h);
      NumberedNext(g.peers, g.next, peer, state);
      AddedPeer(g.peers, peer, Generation(g.next, state));
      PeerQuotaKept(g, h);
      forall id | id in h.sessions ensures Registered(h, id) {
        assert Registered(g, id);
      }
      assert Inv(h);
    } else {
      assert WithGeneration(g, peer, state) == Some(g);
    }
  }

  lemma {:induction false} NumberedUpdate(peers: map<Peer, Generation>, next: U64, peer: Peer, state: PeerAuthority)
    requires Numbered(peers, next) && peer in peers
    ensures Numbered(peers[peer := peers[peer].(state := state)], next)
  {
  }

  lemma {:induction false} DenyPresent(g: Gate, peer: Peer)
    requires Inv(g) && peer in g.peers
    ensures Inv(g.(peers := g.peers[peer := g.peers[peer].(state := RuntimeDenied)],
                   sessions := Cancel(g.sessions, Some(peer))))
  {
    hide Numbered;
    hide WithinQuotas;
    var h := g.(peers := g.peers[peer := g.peers[peer].(state := RuntimeDenied)],
                sessions := Cancel(g.sessions, Some(peer)));
    assert h.peers.Keys == g.peers.Keys;
    NumberedUpdate(g.peers, g.next, peer, RuntimeDenied);
    QuotasKept(g, h);
    forall id | id in h.sessions ensures Registered(h, id) {
      assert Registered(g, id);
    }
  }

  lemma {:induction false} DenyKeepsInv(g: Gate, peer: Option<Peer>)
    requires Inv(g)
    ensures Inv(StepDeny(g, peer).0)
  {
    hide Inv;
    if peer.Some? && WithGeneration(g, peer.value, RuntimeDenied).Some? {
      AllocateKeepsInv(g, peer.value, RuntimeDenied);
      DenyPresent(WithGeneration(g, peer.value, RuntimeDenied).value, peer.value);
    }
  }

  lemma {:induction false} RemovedKeepsInv(g: Gate, peer: Option<Peer>)
    requires Inv(g)
    ensures Inv(Step(g, Removed(peer)).0)
  {
    hide WithinQuotas;
    hide Numbered;
    var h := Step(g, Removed(peer)).0;
    QuotasKept(g, h);
    if h != g {
      NumberedWithout(g.peers, g.next, peer.value);
    }
    forall id | id in h.sessions ensures Registered(h, id) {
      assert Registered(g, id);
    }
  }

  lemma {:induction false} NumberedWithout(peers: map<Peer, Generation>, next: U64, peer: Peer)
    requires Numbered(peers, next)
    ensures Numbered(peers - {peer}, next)
  {
  }

  lemma {:induction false} ReserveKeepsInv(g: Gate, ticket: Ticket, transport: Transport)
    requires Inv(g)
    ensures Inv(Step(g, Reserve(ticket, transport)).0)
  {
    hide WithinQuotas;
    hide RoomFor;
    var h := Step(g, Reserve(ticket, transport)).0;
    if h.next != g.next {
      assert g.next !in g.sessions by {
        assert g.next in g.sessions ==> Registered(g, g.next);
      }
      ReserveKeepsQuotas(g, ticket, transport);
      QuotasKept(g.(sessions := h.sessions), h);
      forall id | id in h.sessions ensures Registered(h, id) {
        if id != g.next {
          assert h.sessions[id] == g.sessions[id];
          assert Registered(g, id);
        }
      }
    }
  }

  lemma {:induction false} LockKeepsInv(g: Gate)
    requires Inv(g)
    ensures Inv(Step(g, Lock).0)
  {
    hide Numbered;
    hide WithinQuotas;
    var h := Step(g, Lock).0;
    QuotasKept(g, h);
    forall id | id in h.sessions ensures Registered(h, id) {
      assert Registered(g, id);
    }
  }

  lemma {:induction false} OpenKeepsInv(g: Gate, expected: U64)
    requires Inv(g)
    ensures Inv(Step(g, Open(expected)).0)
  {
    hide Numbered;
    hide WithinQuotas;
    var h := Step(g, Open(expected)).0;
    QuotasKept(g, h);
    forall id | id in h.sessions ensures Registered(h, id) {
      assert Registered(g, id);
    }
  }

  lemma {:induction false} LeaseOpsKeepInv(g: Gate, op: Op)
    requires Inv(g) && (op.Publish? || op.Submit? || op.DropLease?)
    ensures Inv(Step(g, op).0)
  {
    hide Numbered;
    hide WithinQuotas;
    var h := Step(g, op).0;
    LeaseOpsShape(g, op);
    QuotasKept(g, h);
    hide Step;
    forall id | id in h.sessions ensures Registered(h, id) {
      assert Registered(g, id);
    }
  }

  lemma {:induction false} LeaseOpsShape(g: Gate, op: Op)
    requires op.Publish? || op.Submit? || op.DropLease?
    ensures var h := Step(g, op).0;
      && h == g.(sessions := h.sessions)
      && h.sessions.Keys <= g.sessions.Keys
      && forall id :: id in h.sessions ==>
           h.sessions[id] == g.sessions[id] || h.sessions[id] == g.sessions[id].(active := true)
  {
  }

  lemma {:induction false} ConnectionKeepsInv(g: Gate)
    requires Inv(g)
    ensures Inv(Step(g, Connection).0)
  {
    hide Numbered;
    hide WithinQuotas;
    var h := Step(g, Connection).0;
    NumberedLater(g.peers, g.next, h.next);
    QuotasKept(g, h);
    forall id | id in h.sessions ensures Registered(h, id) {
      assert Registered(g, id);
    }
  }

  lemma {:induction false} NumberedLater(peers: map<Peer, Generation>, next: U64, later: U64)
    requires Numbered(peers, next) && next <= later
    ensures Numbered(peers, later)
  {
  }

  lemma {:induction false} StepKeepsInv(g: Gate, op: Op)
    requires Inv(g)
    ensures Inv(Step(g, op).0)
  {
    hide Inv;
    match op
    case IssueTicket(peer) =>
      if peer.Some? && WithGeneration(g, peer.value, Authorized).Some? {
        AllocateKeepsInv(g, peer.value, Authorized);
      }
    case Reserve(ticket, transport) => ReserveKeepsInv(g, ticket, transport);
    case Deny(peer) => DenyKeepsInv(g, peer);
    case Removed(peer) => RemovedKeepsInv(g, peer);
    case Lock => LockKeepsInv(g);
    case Open(expected) => OpenKeepsInv(g, expected);
    case Connection => ConnectionKeepsInv(g);
    case Publish(_) => LeaseOpsKeepInv(g, op);
    case Submit(_) => LeaseOpsKeepInv(g, op);
    case DropLease(_) => LeaseOpsKeepInv(g, op);
  }

  /** In every reachable gate each uncancelled session belongs to its peer's live generation and the
      gate is open, numbers are unique, and every quota holds. */
  lemma {:induction false} RegistryInvariant(locked: bool, ops: seq<Op>)
    ensures Inv(Run(Initial(locked), ops))
  {
    hide Step;
    if ops == [] {
      var g := Initial(locked);
      forall p ensures |SessionsOf(g.sessions, p)| <= PEER_SESSIONS {
        assert SessionsOf(g.sessions, p) == {};
      }
      forall t: Transport ensures |SessionsOver(g.sessions, t)| <= CONNECTION_SESSIONS {
        assert SessionsOver(g.sessions, t) == {};
      }
    } else {
      RegistryInvariant(locked, ops[..|ops| - 1]);
      StepKeepsInv(Run(Initial(locked), ops[..|ops| - 1]), ops[|ops| - 1]);
    }
  }

  // ---------------------------------------------------------------- identifiers

  /** The number an operation takes from the counter, if it takes one. */
  ghost function Taken(g: Gate, op: Op): Option<U64> {
    if Step(g, op).0.next != g.next then Some(g.next) else None
  }

  lemma {:induction false} CounterRises(g: Gate, op: Op)
    ensures var h := Step(g, op).0;
      && g.next <= h.next && g.epoch <= h.epoch
      && (h.next != g.next ==> h.next == g.next + 1)
      && (Step(g, op).1.Identifier? ==> Taken(g, op) == Some(Step(g, op).1.id))
      && (forall p :: p in h.peers && (p !in g.peers || h.peers[p].number != g.peers[p].number) ==>
            Taken(g, op) == Some(h.peers[p].number))
  {
  }

  lemma {:induction false} RunRises(g: Gate, ops: seq<Op>)
    ensures g.next <= Run(g, ops).next && g.epoch <= Run(g, ops).epoch
  {
    hide Step;
    if ops != [] {
      RunRises(g, ops[..|ops| - 1]);
      CounterRises(Run(g, ops[..|ops| - 1]), ops[|ops| - 1]);
    }
  }

  lemma {:induction false} RunSplit(g: Gate, ops: seq<Op>, n: nat)
    requires n <= |ops|
    ensures Run(g, ops) == Run(Run(g, ops[..n]), ops[n..])
    decreases |ops|
  {
    hide Step;
    if n == |ops| {
      assert ops[..n] == ops && ops[n..] == [];
    } else {
      var init := ops[..|ops| - 1];
      RunSplit(g, init, n);
      assert init[..n] == ops[..n];
      assert init[n..] == ops[n..][..|ops[n..]| - 1];
    }
  }

  /** No generation, session or connection number is ever handed out twice. */
  lemma {:induction false} NumbersNeverReused(g: Gate, ops: seq<Op>, i: nat, j: nat)
    requires i < j < |ops|
    requires Taken(Run(g, ops[..i]), ops[i]).Some? && Taken(Run(g, ops[..j]), ops[j]).Some?
    ensures Taken(Run(g, ops[..i]), ops[i]).value < Taken(Run(g, ops[..j]), ops[j]).value
  {
    hide Step;
    var a := Run(g, ops[..i]);
    CounterRises(a, ops[i]);
    assert ops[..i + 1][..i] == ops[..i];
    RunSplit(g, ops[..j], i + 1);
    assert ops[..j][..i + 1] == ops[..i + 1];
    RunRises(Run(g, ops[..i + 1]), ops[..j][i + 1..]);
  }

  // ---------------------------------------------------------------- revocation is final

  /** The ticket's generation is gone or denied, and its number can never come back. */
  ghost predicate GenerationDead(g: Gate, t: Ticket) {
    && t.generation < g.next
    && !(t.peer in g.peers && g.peers[t.peer] == Generation(t.generation, Authorized))
  }

  /** The ticket's epoch has passed, or the epochs are exhausted with the gate locked. */
  ghost predicate EpochDead(g: Gate, t: Ticket) {
    t.epoch < g.epoch || (g.epoch == U64_MAX && g.locked)
  }

  ghost predicate Dead(g: Gate, t: Ticket) {
    GenerationDead(g, t) || EpochDead(g, t)
  }

  lemma {:induction false} DeadStays(g: Gate, op: Op, t: Ticket)
    requires Dead(g, t)
    ensures Dead(Step(g, op).0, t)
    ensures GenerationDead(g, t) ==> GenerationDead(Step(g, op).0, t)
    ensures EpochDead(g, t) ==> EpochDead(Step(g, op).0, t)
  {
  }

  lemma {:induction false} DeadForever(g: Gate, ops: seq<Op>, t: Ticket)
    requires Dead(g, t)
    ensures Dead(Run(g, ops), t) && !Run(g, ops).Current(t)
  {
    hide Step;
    if ops != [] {
      DeadForever(g, ops[..|ops| - 1], t);
      DeadStays(Run(g, ops[..|ops| - 1]), ops[|ops| - 1], t);
    }
  }

  lemma {:induction false} DenyKills(g: Gate, peer: Peer, t: Ticket)
    requires t.peer == peer && t.generation < g.next
    ensures GenerationDead(Step(g, Deny(Some(peer))).0, t)
  {
  }

  lemma {:induction false} LockKills(g: Gate, t: Ticket)
    requires t.epoch <= g.epoch
    ensures EpochDead(Step(g, Lock).0, t)
  {
  }

  /** After `deny_peer`, successful or not, no ticket that peer held before is current in any
      continuation: not after removal and a new admission, and not after reopening. */
  lemma {:induction false} DenialIsFinal(g: Gate, peer: Peer, t: Ticket, ops: seq<Op>)
    requires Issuable(g, t) && t.peer == peer
    ensures !Run(Step(g, Deny(Some(peer))).0, ops).Current(t)
  {
    DenyKills(g, peer, t);
    DeadForever(Step(g, Deny(Some(peer))).0, ops, t);
  }

  /** After `lock`, even one that reports an exhausted epoch, no ticket issued before is current in
      any continuation. */
  lemma {:induction false} LockIsFinal(g: Gate, t: Ticket, ops: seq<Op>)
    requires Issuable(g, t)
    ensures !Run(Step(g, Lock).0, ops).Current(t)
  {
    LockKills(g, t);
    DeadForever(Step(g, Lock).0, ops, t);
  }

  /** Every ticket the gate ever issued stays among those covered by the two theorems above. */
  lemma {:induction false} IssuedStaysIssuable(g: Gate, peer: Option<Peer>, ops: seq<Op>)
    requires Inv(g) && Step(g, IssueTicket(peer)).1.Issued?
    ensures Issuable(Run(Step(g, IssueTicket(peer)).0, ops), Step(g, IssueTicket(peer)).1.ticket)
    ensures Step(g, IssueTicket(peer)).0.Current(Step(g, IssueTicket(peer)).1.ticket)
  {
    RunRises(Step(g, IssueTicket(peer)).0, ops);
  }

  /** An `open` holding an epoch read before a newer `lock` fails in every continuation. */
  lemma {:induction false} NewerLockWins(g: Gate, read: U64, ops: seq<Op>)
    requires read <= g.epoch
    ensures var h := Run(Step(g, Lock).0, ops); Step(h, Open(read)) == (h, Rejected)
  {
    var locked := Step(g, Lock).0;
    RunRises(locked, ops);
  }

  /** A session keeps the ticket it was reserved with for as long as it exists. */
  lemma {:induction false} SessionTicketFixed(g: Gate, ops: seq<Op>, id: U64)
    requires Inv(g) && id < g.next
    ensures id in Run(g, ops).sessions ==> id in g.sessions && Run(g, ops).sessions[id].ticket == g.sessions[id].ticket
  {
    if ops != [] {
      var init := ops[..|ops| - 1];
      SessionTicketFixed(g, init, id);
      RunRises(g, init);
      StepKeepsTicket(Run(g, init), ops[|ops| - 1], id);
    }
  }

  lemma {:induction false} StepKeepsTicket(g: Gate, op: Op, id: U64)
    requires id < g.next
    ensures id in Step(g, op).0.sessions ==>
      id in g.sessions && Step(g, op).0.sessions[id].ticket == g.sessions[id].ticket
  {
  }

  /** Once a session's ticket is dead, no write or publication through it succeeds again. */
  lemma {:induction false} DeadSessionsAreSilent(g: Gate, ops: seq<Op>, id: U64)
    requires Inv(g) && id in g.sessions && Dead(g, g.sessions[id].ticket)
    ensures Step(Run(g, ops), Submit(id)) == (Run(g, ops), Rejected)
    ensures Step(Run(g, ops), Publish(id)) == (Run(g, ops), Rejected)
  {
    SessionTicketFixed(g, ops, id);
    DeadForever(g, ops, g.sessions[id].ticket);
  }

  /** Revocation silences every session: those of the denied peer, and after `lock` all of them. */
  lemma {:induction false} RevokedSessionsAreSilent(g: Gate, op: Op, ops: seq<Op>, id: U64)
    requires Inv(g) && id in g.sessions
    requires op == Lock || op == Deny(Some(g.sessions[id].ticket.peer))
    ensures var h := Run(Step(g, op).0, ops);
      Step(h, Submit(id)) == (h, Rejected) && Step(h, Publish(id)) == (h, Rejected)
  {
    hide Run;
    var after := Step(g, op).0;
    var t := g.sessions[id].ticket;
    assert Registered(g, id);
    StepKeepsInv(g, op);
    StepKeepsTicket(g, op, id);
    if op == Lock {
      LockKills(g, t);
    } else {
      DenyKills(g, t.peer, t);
    }
    if id in after.sessions {
      DeadSessionsAreSilent(after, ops, id);
    } else {
      CounterRises(g, op);
      SessionTicketFixed(after, ops, id);
    }
  }

  /** A stale session need not be cancelled: reopening an open gate outdates tickets without
      cancelling the sessions that hold them. */
  lemma {:induction false} StaleIsNotCancelled() returns (g: Gate, id: U64)
    ensures exists ops :: g == Run(Initial(false), ops)
    ensures id in g.sessions && !g.sessions[id].cancelled && !g.Current(g.sessions[id].ticket)
  {
    var p := Zeros(8);
    var g0 := Initial(false);
    var t := Ticket(p, 1, 1);
    var ops := [IssueTicket(Some(p)), Reserve(t, Tcp), Open(1)];
    var g1 := Step(g0, ops[0]).0;
    assert g1 == Gate(1, false, 2, map[p := Generation(1, Authorized)], map[]);
    assert SessionsOf(g1.sessions, p) == {};
    var g2 := Step(g1, ops[1]).0;
    g, id := Step(g2, ops[2]).0, 2;
    assert ops[..0] == [] && ops[..1][..0] == [] && ops[..2][..1] == ops[..1];
    assert Run(g0, ops[..1]) == g1 && Run(g0, ops[..2]) == g2;
    assert ops[..3] == ops && Run(g0, ops) == g;
  }
}
