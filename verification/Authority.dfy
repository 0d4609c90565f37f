/** The gate as the object the daemon shares, and the stream wrapper that writes through it. */
module Authority {
  import opened Basics
  import opened AuthorityGate
  import opened AuthorityStreams

  class Authority {
    var epoch: U64
    var locked: bool
    var next: U64
    var peers: map<Peer, Generation>
    var sessions: map<U64, Entry>

    ghost function State(): Gate
      reads this
    {
      Gate(epoch, locked, next, peers, sessions)
    }

    constructor (locked: bool)
      ensures State() == Initial(locked)
    {
      this.epoch := 1;
      this.locked := locked;
      this.next := 1;
      this.peers := map[];
      this.sessions := map[];
    }

    predicate Permits(ticket: Ticket)
      reads this
      ensures Permits(ticket) == State().Current(ticket)
    {
      && !locked
      && epoch == ticket.epoch
      && ticket.peer in peers
      && peers[ticket.peer].number == ticket.generation
      && peers[ticket.peer].state == Authorized
    }

    /** Takes the next number, or fails leaving the counter where it is. */
    method Allocate() returns (id: Option<U64>)
      modifies this`next
      ensures old(next) == U64_MAX ==> id == None && next == old(next)
      ensures old(next) < U64_MAX ==> id == Some(old(next)) && next == old(next) + 1
    {
      if next == U64_MAX {
        return None;
      }
      id := Some(next);
      next := next + 1;
    }

    method NewConnection() returns (r: Reply)
      modifies this`next
      ensures (State(), r) == Step(old(State()), Connection)
    {
      var id := Allocate();
      r := if id.Some? then Identifier(id.value) else Rejected;
    }

    method NewTicket(peer: Option<Peer>) returns (r: Reply)
      modifies this`next, this`peers
      ensures (State(), r) == Step(old(State()), IssueTicket(peer))
    {
      if peer.None? || locked {
        return Rejected;
      }
      if peer.value !in peers {
        if |peers| >= PEER_GENERATIONS {
          return Rejected;
        }
        var number := Allocate();
        if number.None? {
          return Rejected;
        }
        peers := peers[peer.value := Generation(number.value, Authorized)];
      }
      var generation := peers[peer.value];
      r := if generation.state == Authorized
        then Issued(Ticket(peer.value, generation.number, epoch)) else Rejected;
    }

    method ReserveSession(ticket: Ticket, transport: Transport) returns (r: Reply)
      modifies this`next, this`sessions
      ensures (State(), r) == Step(old(State()), Reserve(ticket, transport))
    {
      if !Permits(ticket) || |sessions| >= GLOBAL_SESSIONS {
        return Rejected;
      }
      var ofPeer := CountSessions(sessions, (e: Entry) => e.ticket.peer == ticket.peer);
      assert SessionsOf(sessions, ticket.peer) == Matching(sessions, (e: Entry) => e.ticket.peer == ticket.peer);
      if ofPeer >= PEER_SESSIONS {
        return Rejected;
      }
      if transport.Quic? {
        var over := CountSessions(sessions, (e: Entry) => e.transport == transport);
        assert SessionsOver(sessions, transport) == Matching(sessions, (e: Entry) => e.transport == transport);
        if over >= CONNECTION_SESSIONS {
          return Rejected;
        }
      }
      var id := Allocate();
      if id.None? {
        return Rejected;
      }
      sessions := sessions[id.value := Entry(ticket, transport, false, false)];
      r := Identifier(id.value);
    }

    method DenyPeer(peer: Option<Peer>) returns (r: Reply)
      modifies this`next, this`peers, this`sessions
      ensures (State(), r) == Step(old(State()), Deny(peer))
    {
      if peer.None? {
        return Rejected;
      }
      if peer.value !in peers {
        if |peers| >= PEER_GENERATIONS {
          return Rejected;
        }
        var number := Allocate();
        if number.None? {
          return Rejected;
        }
        peers := peers[peer.value := Generation(number.value, RuntimeDenied)];
      } else {
        peers := peers[peer.value := peers[peer.value].(state := RuntimeDenied)];
      }
      assert peers[peer.value := peers[peer.value].(state := RuntimeDenied)] == peers;
      CancelSessions(peer);
      r := Done;
    }

    method RemovedPeer(peer: Option<Peer>) returns (r: Reply)
      modifies this`peers
      ensures (State(), r) == Step(old(State()), Removed(peer))
    {
      if peer.None? || peer.value !in peers || peers[peer.value].state != RuntimeDenied {
        return Rejected;
      }
      peers := peers - {peer.value};
      r := Done;
    }

    /** Sets the cancel flag of every session, or of every session of one peer. */
    method CancelSessions(peer: Option<Peer>)
      modifies this`sessions
      ensures sessions == Cancel(old(sessions), peer)
    {
      var todo := sessions.Keys;
      while todo != {}
        invariant todo <= sessions.Keys == old(sessions).Keys
        invariant forall id :: id in todo ==> sessions[id] == old(sessions)[id]
        invariant forall id :: id in sessions && id !in todo ==> sessions[id] == Cancel(old(sessions), peer)[id]
        decreases todo
      {
        var id :| id in todo;
        if peer.None? || sessions[id].ticket.peer == peer.value {
          sessions := sessions[id := sessions[id].(cancelled := true)];
        }
        todo := todo - {id};
      }
    }

    method LockGate() returns (r: Reply)
      modifies this`epoch, this`locked, this`sessions
      ensures (State(), r) == Step(old(State()), Lock)
    {
      locked := true;
      CancelSessions(None);
      if epoch == U64_MAX {
        return Rejected;
      }
      epoch := epoch + 1;
      r := Epoch(epoch);
    }

    method OpenAfterDurable(expected: U64) returns (r: Reply)
      modifies this`epoch, this`locked
      ensures (State(), r) == Step(old(State()), Open(expected))
    {
      if epoch != expected || epoch == U64_MAX {
        return Rejected;
      }
      epoch := epoch + 1;
      locked := false;
      r := Done;
    }

    method PublishSession(id: U64) returns (r: Reply)
      modifies this`sessions
      ensures (State(), r) == Step(old(State()), Publish(id))
    {
      if id !in sessions || !Permits(sessions[id].ticket) {
        return Rejected;
      }
      sessions := sessions[id := sessions[id].(active := true)];
      r := Done;
    }

    /** The submission gate: whether one poll of the transport may run now. */
    method SubmitThrough(id: U64) returns (r: Reply)
      ensures (State(), r) == Step(State(), Submit(id))
    {
      r := if id in sessions && Permits(sessions[id].ticket) then Done else Rejected;
    }

    method ReleaseLease(id: U64)
      modifies this`sessions
      ensures (State(), Done) == Step(old(State()), DropLease(id))
    {
      sessions := sessions - {id};
    }
  }

  ghost function Matching(sessions: map<U64, Entry>, f: Entry -> bool): set<U64> {
    set id | id in sessions && f(sessions[id])
  }

  method CountSessions(sessions: map<U64, Entry>, f: Entry -> bool) returns (n: nat)
    ensures n == |Matching(sessions, f)|
  {
    n := 0;
    var todo := sessions.Keys;
    ghost var counted: set<U64> := {};
    while todo != {}
      invariant todo <= sessions.Keys
      invariant counted == set id | id in sessions && id !in todo && f(sessions[id])
      invariant n == |counted|
      decreases todo
    {
      var id :| id in todo;
      todo := todo - {id};
      if f(sessions[id]) {
        n := n + 1;
        counted := counted + {id};
      }
    }
    assert counted == Matching(sessions, f);
  }

  /** A raw TCP stream: writes are free until a lease is installed and gated from then on. */
  class AuthorityTcpStream {
    const authority: Authority
    var lease: Option<U64>
    var written: seq<Byte>

    constructor (authority: Authority)
      ensures this.authority == authority && lease == None && written == []
    {
      this.authority := authority;
      lease := None;
      written := [];
    }

    ghost function State(): Wire
      reads this, authority
    {
      Wire(authority.State(), lease, written)
    }

    /** Installs the lease exactly once. */
    method Authorize(id: U64) returns (ok: bool)
      modifies this`lease
      ensures ok == old(lease).None?
      ensures State() == StepWire(old(State()), Install(id))
    {
      ok := lease.None?;
      if ok {
        lease := Some(id);
      }
    }

    /** One poll that hands over the first `accepted` bytes, if the gate lets it through. */
    method PollWrite(bytes: seq<Byte>, accepted: nat) returns (ok: bool)
      requires accepted <= |bytes|
      modifies this`written
      ensures ok == Flows(old(State()))
      ensures State() == StepWire(old(State()), Poll(bytes, accepted))
    {
      if lease.Some? {
        var r := authority.SubmitThrough(lease.value);
        if r != Done {
          return false;
        }
      }
      written := written + bytes[..accepted];
      ok := true;
    }
  }

  /** Any number of polls after a lock or a denial, with any operations on the gate in between: the
      stream hands over nothing. */
  method WriteAfterRevocation(
      stream: AuthorityTcpStream, ghost before: Wire, op: Op, ghost acts: seq<Act>, bytes: seq<Byte>, accepted: nat)
    returns (ok: bool)
    requires accepted <= |bytes| && Inv(before.gate)
    requires before.lease.Some? && before.lease.value in before.gate.sessions
    requires op == Lock || op == Deny(Some(before.gate.sessions[before.lease.value].ticket.peer))
    requires stream.State() == RunWire(StepWire(before, Operate(op)), acts)
    modifies stream`written
    ensures !ok && stream.written == before.written
  {
    ghost var id := before.lease.value;
    ghost var after := StepWire(before, Operate(op));
    RevokedIsMute(before, op, acts, id);
    LeaseIsFinal(after, acts);
    GateOfRun(after, acts);
    RevokedSessionsAreSilent(before.gate, op, OpsOf(acts), id);
    ok := stream.PollWrite(bytes, accepted);
  }
}
