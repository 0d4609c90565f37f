/** What the gate lets through, for how long, and what an operation leaves alone. */
module AuthorityProgress {
  import opened Basics
  import opened AuthorityGate

  // ---------------------------------------------------------------- how long a ticket lasts

  /** The operation ends every ticket of this peer and epoch: a lock, a reopening, or the peer's denial. */
  ghost predicate Ends(g: Gate, op: Op, peer: Peer) {
    op == Lock || op == Deny(Some(peer)) || (op.Open? && Step(g, op).1 == Done)
  }

  ghost predicate EndedIn(g: Gate, ops: seq<Op>, peer: Peer) {
    exists i :: 0 <= i < |ops| && Ends(Run(g, ops[..i]), ops[i], peer)
  }

  lemma {:induction false} TicketKept(g: Gate, op: Op, t: Ticket)
    requires g.Current(t) && !Ends(g, op, t.peer)
    ensures Step(g, op).0.Current(t)
  {
  }

  lemma {:induction false} TicketEnded(g: Gate, op: Op, t: Ticket)
    requires Issuable(g, t) && Ends(g, op, t.peer)
    ensures Dead(Step(g, op).0, t)
  {
    if op == Lock {
      LockKills(g, t);
    } else if op.Deny? {
      DenyKills(g, t.peer, t);
    }
  }

  lemma {:induction false} CurrentIsIssuable(g: Gate, t: Ticket)
    requires Inv(g) && g.Current(t)
    ensures Issuable(g, t)
  {
  }

  lemma {:induction false} IssuableStays(g: Gate, ops: seq<Op>, t: Ticket)
    requires Issuable(g, t)
    ensures Issuable(Run(g, ops), t)
  {
    RunRises(g, ops);
  }

  lemma {:induction false} EndedEarlier(g: Gate, ops: seq<Op>, peer: Peer)
    requires ops != []
    ensures EndedIn(g, ops, peer) <==>
      EndedIn(g, ops[..|ops| - 1], peer) || Ends(Run(g, ops[..|ops| - 1]), ops[|ops| - 1], peer)
  {
    hide Step;
    hide Ends;
    var init := ops[..|ops| - 1];
    if EndedIn(g, ops, peer) {
      var i :| 0 <= i < |ops| && Ends(Run(g, ops[..i]), ops[i], peer);
      if i < |init| {
        assert init[..i] == ops[..i] && init[i] == ops[i];
      }
    }
    if EndedIn(g, init, peer) {
      var i :| 0 <= i < |init| && Ends(Run(g, init[..i]), init[i], peer);
      assert init[..i] == ops[..i] && init[i] == ops[i];
    }
  }

  lemma {:induction false} TicketFate(g: Gate, ops: seq<Op>, t: Ticket)
    requires Issuable(g, t) && g.Current(t)
    ensures if EndedIn(g, ops, t.peer) then Dead(Run(g, ops), t) else Run(g, ops).Current(t)
  {
    hide Step;
    hide Ends;
    hide Dead;
    if ops != [] {
      var init, op := ops[..|ops| - 1], ops[|ops| - 1];
      TicketFate(g, init, t);
      EndedEarlier(g, ops, t.peer);
      IssuableStays(g, init, t);
      if EndedIn(g, init, t.peer) {
        DeadStays(Run(g, init), op, t);
      } else if Ends(Run(g, init), op, t.peer) {
        TicketEnded(Run(g, init), op, t);
      } else {
        TicketKept(Run(g, init), op, t);
      }
      hide EndedIn;
    }
  }

  /** A ticket stays current through any run exactly until a lock, a reopening or the denial of its peer:
      nothing done to other peers, sessions or connections touches it. */
  lemma {:induction false} TicketLastsUntil(g: Gate, ops: seq<Op>, t: Ticket)
    requires Inv(g) && g.Current(t)
    ensures Run(g, ops).Current(t) <==> !EndedIn(g, ops, t.peer)
  {
    CurrentIsIssuable(g, t);
    TicketFate(g, ops, t);
    hide Run;
    hide EndedIn;
    if Dead(Run(g, ops), t) {
      DeadIsNotCurrent(Run(g, ops), t);
    }
    hide Dead;
  }

  lemma {:induction false} DeadIsNotCurrent(g: Gate, t: Ticket)
    requires Dead(g, t)
    ensures !g.Current(t)
  {
  }

  // ---------------------------------------------------------------- what becomes of a session

  /** The operation cancels the sessions of this peer. */
  ghost predicate Cancels(g: Gate, op: Op, peer: Peer) {
    op == Lock || (op == Deny(Some(peer)) && Step(g, op).1 == Done)
  }

  ghost predicate CancelledIn(g: Gate, ops: seq<Op>, peer: Peer) {
    exists i :: 0 <= i < |ops| && Cancels(Run(g, ops[..i]), ops[i], peer)
  }

  ghost predicate PublishedIn(g: Gate, ops: seq<Op>, id: U64) {
    exists i :: 0 <= i < |ops| && ops[i] == Publish(id) && Step(Run(g, ops[..i]), ops[i]).1 == Done
  }

  lemma {:induction false} CancelledEarlier(g: Gate, ops: seq<Op>, peer: Peer)
    requires ops != []
    ensures CancelledIn(g, ops, peer) <==>
      CancelledIn(g, ops[..|ops| - 1], peer) || Cancels(Run(g, ops[..|ops| - 1]), ops[|ops| - 1], peer)
  {
    hide Step;
    hide Cancels;
    var init := ops[..|ops| - 1];
    if CancelledIn(g, ops, peer) {
      var i :| 0 <= i < |ops| && Cancels(Run(g, ops[..i]), ops[i], peer);
      if i < |init| {
        assert init[..i] == ops[..i] && init[i] == ops[i];
      }
    }
    if CancelledIn(g, init, peer) {
      var i :| 0 <= i < |init| && Cancels(Run(g, init[..i]), init[i], peer);
      assert init[..i] == ops[..i] && init[i] == ops[i];
    }
  }

  lemma {:induction false} PublishedEarlier(g: Gate, ops: seq<Op>, id: U64)
    requires ops != []
    ensures PublishedIn(g, ops, id) <==>
      || PublishedIn(g, ops[..|ops| - 1], id)
      || (ops[|ops| - 1] == Publish(id) && Step(Run(g, ops[..|ops| - 1]), ops[|ops| - 1]).1 == Done)
  {
    hide Step;
    var init := ops[..|ops| - 1];
    if PublishedIn(g, ops, id) {
      var i :| 0 <= i < |ops| && ops[i] == Publish(id) && Step(Run(g, ops[..i]), ops[i]).1 == Done;
      if i < |init| {
        assert init[..i] == ops[..i] && init[i] == ops[i];
      }
    }
    if PublishedIn(g, init, id) {
      var i :| 0 <= i < |init| && init[i] == Publish(id) && Step(Run(g, init[..i]), init[i]).1 == Done;
      assert init[..i] == ops[..i] && init[i] == ops[i];
    }
  }

  lemma {:induction false} SessionStep(g: Gate, op: Op, id: U64)
    requires id in g.sessions && id < g.next
    ensures var h, e := Step(g, op).0, g.sessions[id];
      && (id in h.sessions <==> op != DropLease(id))
      && (op != DropLease(id) ==>
            h.sessions[id] == e.(
              cancelled := e.cancelled || Cancels(g, op, e.ticket.peer),
              active := e.active || (op == Publish(id) && Step(g, op).1 == Done)))
  {
  }

  lemma {:induction false} DroppedStays(g: Gate, op: Op, id: U64)
    requires id !in g.sessions && id < g.next
    ensures id !in Step(g, op).0.sessions
  {
  }

  /** A session exists exactly until its lease is dropped; meanwhile it keeps ticket and transport, is
      cancelled exactly once a lock or the denial of its own peer comes, and active exactly once published. */
  lemma {:induction false} SessionLastsUntil(g: Gate, ops: seq<Op>, id: U64)
    requires Inv(g) && id in g.sessions
    ensures id in Run(g, ops).sessions <==> DropLease(id) !in ops
    ensures DropLease(id) !in ops ==>
      var e := g.sessions[id];
      Run(g, ops).sessions[id] == e.(
        cancelled := e.cancelled || CancelledIn(g, ops, e.ticket.peer), active := e.active || PublishedIn(g, ops, id))
  {
    assert Registered(g, id);
    assert id < g.next;
    hide Inv;
    SessionFate(g, ops, id);
  }

  lemma {:induction false} SessionFate(g: Gate, ops: seq<Op>, id: U64)
    requires id in g.sessions && id < g.next
    ensures id in Run(g, ops).sessions <==> DropLease(id) !in ops
    ensures DropLease(id) !in ops ==>
      var e := g.sessions[id];
      Run(g, ops).sessions[id] == e.(
        cancelled := e.cancelled || CancelledIn(g, ops, e.ticket.peer), active := e.active || PublishedIn(g, ops, id))
  {
    hide Step;
    hide Cancels;
    if ops != [] {
      var init, op := ops[..|ops| - 1], ops[|ops| - 1];
      assert ops == init + [op];
      SessionFate(g, init, id);
      RunRises(g, init);
      CancelledEarlier(g, ops, g.sessions[id].ticket.peer);
      PublishedEarlier(g, ops, id);
      hide CancelledIn;
      hide PublishedIn;
      if id in Run(g, init).sessions {
        SessionStep(Run(g, init), op, id);
      } else {
        DroppedStays(Run(g, init), op, id);
      }
    }
  }

  /** A write or publication succeeds exactly on a session that is there and whose ticket is current. */
  lemma {:induction false} LeasesWork(g: Gate, id: U64)
    ensures Step(g, Submit(id)).1 == Done <==> id in g.sessions && g.Current(g.sessions[id].ticket)
    ensures Step(g, Publish(id)).1 == Done <==> id in g.sessions && g.Current(g.sessions[id].ticket)
  {
  }

  /** A session that works keeps working: a write or publication through it succeeds after any run exactly
      when its lease was not dropped and no lock, reopening or denial of its peer came between. */
  lemma {:induction false} SessionsWorkUntil(g: Gate, ops: seq<Op>, id: U64)
    requires Inv(g) && id in g.sessions && g.Current(g.sessions[id].ticket)
    ensures Step(Run(g, ops), Submit(id)).1 == Done <==>
      DropLease(id) !in ops && !EndedIn(g, ops, g.sessions[id].ticket.peer)
    ensures Step(Run(g, ops), Publish(id)).1 == Done <==>
      DropLease(id) !in ops && !EndedIn(g, ops, g.sessions[id].ticket.peer)
  {
    SessionLastsUntil(g, ops, id);
    TicketLastsUntil(g, ops, g.sessions[id].ticket);
    LeasesWork(Run(g, ops), id);
    hide Run;
    hide Step;
    hide Inv;
    hide EndedIn;
    hide CancelledIn;
    hide PublishedIn;
  }

  // ---------------------------------------------------------------- what is let through

  /** A session is reserved exactly on a current ticket with room under 1024 in all, 64 of the peer and,
      over QUIC, 64 of the connection; it is then there, not yet active, and no other session changes. */
  lemma {:induction false} ReservedExactly(g: Gate, t: Ticket, transport: Transport)
    requires Inv(g)
    ensures var (h, r) := Step(g, Reserve(t, transport));
      && (r.Identifier? <==>
            && g.Current(t) && g.next < U64_MAX
            && |g.sessions| < 1024
            && |set id | id in g.sessions && g.sessions[id].ticket.peer == t.peer| < 64
            && (transport.Quic? ==> |set id | id in g.sessions && g.sessions[id].transport == transport| < 64))
      && (r.Identifier? ==>
            && r.id !in g.sessions && h.sessions == g.sessions[r.id := Entry(t, transport, false, false)]
            && h.peers == g.peers && h.epoch == g.epoch && h.locked == g.locked && h.Current(t))
      && (!r.Identifier? ==> r == Rejected && h == g)
  {
    assert g.next in g.sessions ==> Registered(g, g.next);
    hide Inv;
    assert SessionsOf(g.sessions, t.peer) == set id | id in g.sessions && g.sessions[id].ticket.peer == t.peer;
    assert SessionsOver(g.sessions, transport) == set id | id in g.sessions && g.sessions[id].transport == transport;
  }

  /** A ticket is issued exactly on an open gate to a peer that is authorized or, while there is room, new; a
      new peer gets a number above every number handed out before, and so does every connection. */
  lemma {:induction false} IssuedExactly(g: Gate, peer: Peer)
    requires Inv(g)
    ensures var (h, r) := Step(g, IssueTicket(Some(peer)));
      && (r.Issued? <==>
            && !g.locked
            && (if peer in g.peers then g.peers[peer].state == Authorized
                else |g.peers| < 1024 && g.next < U64_MAX))
      && (r.Issued? ==>
            && r.ticket.peer == peer && h.Current(r.ticket) && h.sessions == g.sessions
            && (peer in g.peers ==> h == g)
            && (peer !in g.peers ==> r.ticket.generation == g.next < h.next && h.peers - {peer} == g.peers))
    ensures Step(g, Connection) ==
      if g.next < U64_MAX then (g.(next := g.next + 1), Identifier(g.next)) else (g, Rejected)
  {
    if peer !in g.peers {
      assert g.peers[peer := Generation(g.next, Authorized)] - {peer} == g.peers;
    }
  }

  // ---------------------------------------------------------------- denial concerns one peer

  /** Denying a peer cancels every session of that peer and denies it, and leaves every other peer's
      generation, sessions and current tickets, the epoch and the lock exactly as they were. */
  lemma {:induction false} DenialConcernsOnePeer(g: Gate, peer: Peer)
    ensures var (h, r) := Step(g, Deny(Some(peer)));
      && (r == Done <==> peer in g.peers || (|g.peers| < 1024 && g.next < U64_MAX))
      && h.epoch == g.epoch && h.locked == g.locked && h.sessions.Keys == g.sessions.Keys
      && h.peers - {peer} == g.peers - {peer}
      && (forall id :: id in g.sessions && g.sessions[id].ticket.peer != peer ==> h.sessions[id] == g.sessions[id])
      && (forall t: Ticket :: t.peer != peer ==> (h.Current(t) <==> g.Current(t)))
      && (r == Done ==>
            && peer in h.peers && h.peers[peer].state == RuntimeDenied
            && forall id :: id in g.sessions && g.sessions[id].ticket.peer == peer ==>
                 h.sessions[id] == g.sessions[id].(cancelled := true))
      && (r != Done ==> h == g)
  {
    DenialAnswers(g, peer);
    DenialOfSessions(g, peer);
    DenialOfPeers(g, peer);
    hide Step;
    var h := Step(g, Deny(Some(peer))).0;
    forall t: Ticket | t.peer != peer ensures h.Current(t) <==> g.Current(t) {
      assert t.peer in h.peers <==> t.peer in h.peers - {peer};
      assert t.peer in g.peers <==> t.peer in g.peers - {peer};
      if t.peer in g.peers {
        assert h.peers[t.peer] == (h.peers - {peer})[t.peer] == (g.peers - {peer})[t.peer];
      }
    }
  }

  lemma {:induction false} DenialAnswers(g: Gate, peer: Peer)
    ensures var (h, r) := Step(g, Deny(Some(peer)));
      && (r == Done <==> peer in g.peers || (|g.peers| < 1024 && g.next < U64_MAX))
      && h.epoch == g.epoch && h.locked == g.locked
      && (r == Done ==> peer in h.peers && h.peers[peer].state == RuntimeDenied)
      && (r != Done ==> h == g)
  {
  }

  lemma {:induction false} DenialOfSessions(g: Gate, peer: Peer)
    ensures var (h, r) := Step(g, Deny(Some(peer)));
      && h.sessions.Keys == g.sessions.Keys
      && (forall id :: id in g.sessions && g.sessions[id].ticket.peer != peer ==> h.sessions[id] == g.sessions[id])
      && (r == Done ==>
            forall id :: id in g.sessions && g.sessions[id].ticket.peer == peer ==>
              h.sessions[id] == g.sessions[id].(cancelled := true))
  {
    DenialAnswers(g, peer);
    if Step(g, Deny(Some(peer))).1 == Done {
      assert Step(g, Deny(Some(peer))).0.sessions == Cancel(g.sessions, Some(peer));
    }
  }

  lemma {:induction false} WithoutUpdated(peers: map<Peer, Generation>, peer: Peer, generation: Generation)
    ensures peers[peer := generation] - {peer} == peers - {peer}
  {
  }

  lemma {:induction false} DenialOfPeers(g: Gate, peer: Peer)
    ensures Step(g, Deny(Some(peer))).0.peers - {peer} == g.peers - {peer}
  {
    hide Cancel;
    var added := WithGeneration(g, peer, RuntimeDenied);
    if added.Some? {
      WithoutUpdated(g.peers, peer, Generation(g.next, RuntimeDenied));
      assert added.value.peers - {peer} == g.peers - {peer};
      hide WithGeneration;
      if peer in added.value.peers {
        WithoutUpdated(added.value.peers, peer, added.value.peers[peer].(state := RuntimeDenied));
      }
    }
  }

  /** The operation is about this peer's generation. */
  ghost predicate Concerns(op: Op, peer: Peer) {
    op == IssueTicket(Some(peer)) || op == Deny(Some(peer)) || op == Removed(Some(peer))
  }

  ghost function GenerationOf(g: Gate, peer: Peer): Option<Generation> {
    if peer in g.peers then Some(g.peers[peer]) else None
  }

  lemma {:induction false} TicketOfOther(g: Gate, named: Option<Peer>, state: PeerAuthority, peer: Peer)
    requires named.Some? && WithGeneration(g, named.value, state).Some?
    ensures named != Some(peer) || peer in g.peers ==>
      GenerationOf(WithGeneration(g, named.value, state).value, peer) == GenerationOf(g, peer)
  {
  }

  lemma {:induction false} TicketKeepsPeers(g: Gate, named: Option<Peer>, peer: Peer)
    ensures named != Some(peer) || peer in g.peers ==>
      GenerationOf(StepTicket(g, named).0, peer) == GenerationOf(g, peer)
  {
    if named.Some? && WithGeneration(g, named.value, Authorized).Some? {
      TicketOfOther(g, named, Authorized, peer);
    }
    hide WithGeneration;
    hide GenerationOf;
  }

  lemma {:induction false} DenyKeepsPeers(g: Gate, named: Option<Peer>, peer: Peer)
    ensures named != Some(peer) || (peer in g.peers && g.peers[peer].state == RuntimeDenied) ==>
      GenerationOf(StepDeny(g, named).0, peer) == GenerationOf(g, peer)
  {
    hide Cancel;
    if named.Some? && WithGeneration(g, named.value, RuntimeDenied).Some? {
      TicketOfOther(g, named, RuntimeDenied, peer);
    }
    hide WithGeneration;
  }

  lemma {:induction false} OtherOpsKeepPeers(g: Gate, op: Op, peer: Peer)
    requires !op.IssueTicket? && !op.Deny?
    ensures op != Removed(Some(peer)) ==> GenerationOf(Step(g, op).0, peer) == GenerationOf(g, peer)
  {
    hide Cancel;
    hide RoomFor;
    hide StepTicket;
    hide StepDeny;
  }

  lemma {:induction false} GenerationStep(g: Gate, op: Op, peer: Peer)
    ensures !Concerns(op, peer) ==> GenerationOf(Step(g, op).0, peer) == GenerationOf(g, peer)
    ensures peer in g.peers && op != Deny(Some(peer)) && op != Removed(Some(peer)) ==>
      GenerationOf(Step(g, op).0, peer) == GenerationOf(g, peer)
    ensures peer in g.peers && g.peers[peer].state == RuntimeDenied && op != Removed(Some(peer)) ==>
      GenerationOf(Step(g, op).0, peer) == GenerationOf(g, peer)
  {
    hide StepTicket;
    hide StepDeny;
    hide GenerationOf;
    if op.IssueTicket? {
      assert Step(g, op) == StepTicket(g, op.peer);
      TicketKeepsPeers(g, op.peer, peer);
    } else if op.Deny? {
      assert Step(g, op) == StepDeny(g, op.peer);
      DenyKeepsPeers(g, op.peer, peer);
    } else {
      OtherOpsKeepPeers(g, op, peer);
    }
    hide Step;
  }

  /** A denied peer stays denied through any run without its removal. */
  lemma {:induction false} DeniedStays(g: Gate, ops: seq<Op>, peer: Peer)
    requires peer in g.peers && g.peers[peer].state == RuntimeDenied && Removed(Some(peer)) !in ops
    ensures GenerationOf(Run(g, ops), peer) == GenerationOf(g, peer)
  {
    hide Step;
    if ops != [] {
      var init, op := ops[..|ops| - 1], ops[|ops| - 1];
      assert ops == init + [op];
      DeniedStays(g, init, peer);
      GenerationStep(Run(g, init), op, peer);
    }
  }

  lemma {:induction false} UnconcernedStays(g: Gate, ops: seq<Op>, peer: Peer)
    requires forall op :: op in ops ==> !Concerns(op, peer)
    ensures GenerationOf(Run(g, ops), peer) == GenerationOf(g, peer)
  {
    hide Step;
    if ops != [] {
      var init, op := ops[..|ops| - 1], ops[|ops| - 1];
      assert ops == init + [op];
      UnconcernedStays(g, init, peer);
      GenerationStep(Run(g, init), op, peer);
    }
  }

  lemma {:induction false} RemovalStep(g: Gate, peer: Peer)
    requires peer in g.peers && g.peers[peer].state == RuntimeDenied
    ensures Step(g, Removed(Some(peer))) == (g.(peers := g.peers - {peer}), Done)
  {
  }

  /** Denied, removed and added back: whatever happens in between, the removal succeeds, and the peer's next
      ticket on an open gate with room is issued, is current, and has a number never handed out before. */
  lemma {:induction false} RemovedPeersComeBack(g: Gate, peer: Peer, before: seq<Op>, after: seq<Op>)
    requires Inv(g) && Step(g, Deny(Some(peer))).1 == Done
    requires Removed(Some(peer)) !in before && forall op :: op in after ==> !Concerns(op, peer)
    ensures var denied := Run(Step(g, Deny(Some(peer))).0, before);
      var (removed, r) := Step(denied, Removed(Some(peer)));
      var later := Run(removed, after);
      && Step(denied, IssueTicket(Some(peer))).1 == Rejected
      && r == Done && peer !in later.peers
      && (!later.locked && |later.peers| < 1024 && later.next < U64_MAX ==>
            var (back, answer) := Step(later, IssueTicket(Some(peer)));
            && answer == Issued(Ticket(peer, later.next, later.epoch)) && back.Current(answer.ticket)
            && later.next >= removed.next >= g.next)
  {
    var first := Step(g, Deny(Some(peer))).0;
    StepKeepsInv(g, Deny(Some(peer)));
    DenialConcernsOnePeer(g, peer);
    CounterRises(g, Deny(Some(peer)));
    hide Inv;
    DeniedStays(first, before, peer);
    var denied := Run(first, before);
    RunRises(first, before);
    RemovalStep(denied, peer);
    var removed := Step(denied, Removed(Some(peer))).0;
    UnconcernedStays(removed, after, peer);
    RunRises(removed, after);
    hide Run;
    DeniedRefused(denied, peer);
    NewPeerIssued(Run(removed, after), peer);
    hide Step;
  }

  lemma {:induction false} DeniedRefused(g: Gate, peer: Peer)
    requires peer in g.peers && g.peers[peer].state == RuntimeDenied
    ensures Step(g, IssueTicket(Some(peer))) == (g, Rejected)
  {
  }

  lemma {:induction false} NewPeerIssued(g: Gate, peer: Peer)
    requires peer !in g.peers
    ensures !g.locked && |g.peers| < 1024 && g.next < U64_MAX ==>
      var (h, r) := Step(g, IssueTicket(Some(peer)));
      r == Issued(Ticket(peer, g.next, g.epoch)) && h.Current(r.ticket)
  {
  }

  // ---------------------------------------------------------------- locking and reopening

  /** No lock, and no reopening that succeeds. */
  ghost predicate Undisturbed(g: Gate, ops: seq<Op>) {
    forall i :: 0 <= i < |ops| ==> ops[i] != Lock && !(ops[i].Open? && Step(Run(g, ops[..i]), ops[i]).1 == Done)
  }

  lemma {:induction false} EpochKept(g: Gate, op: Op)
    requires op != Lock && !(op.Open? && Step(g, op).1 == Done)
    ensures Step(g, op).0.locked == g.locked && Step(g, op).0.epoch == g.epoch
  {
  }

  lemma {:induction false} LockKept(g: Gate, ops: seq<Op>)
    requires Undisturbed(g, ops)
    ensures Run(g, ops).locked == g.locked && Run(g, ops).epoch == g.epoch
  {
    hide Step;
    if ops != [] {
      var init, op := ops[..|ops| - 1], ops[|ops| - 1];
      forall i | 0 <= i < |init|
        ensures init[i] != Lock && !(init[i].Open? && Step(Run(g, init[..i]), init[i]).1 == Done)
      {
        assert init[..i] == ops[..i] && init[i] == ops[i];
      }
      LockKept(g, init);
      EpochKept(Run(g, init), op);
    }
  }

  /** Locking forgets no peer and no session and refuses all tickets; whatever else happens, the epoch it
      answered reopens the gate, and a peer that was authorized and has not been denied gets a ticket under its
      old number again. */
  lemma {:induction false} LockedGatesReopen(g: Gate, ops: seq<Op>, peer: Peer)
    requires g.epoch < U64_MAX - 1 && peer in g.peers && g.peers[peer].state == Authorized
    requires Undisturbed(Step(g, Lock).0, ops) && forall op :: op in ops ==> !Concerns(op, peer)
    ensures var (locked, r) := Step(g, Lock);
      var later := Run(locked, ops);
      && r.Epoch? && locked.peers == g.peers && locked.sessions.Keys == g.sessions.Keys
      && Step(later, IssueTicket(Some(peer))).1 == Rejected
      && var (reopened, o) := Step(later, Open(r.epoch));
         && o == Done && reopened.sessions == later.sessions && reopened.peers == later.peers
         && Step(reopened, IssueTicket(Some(peer))).1 == Issued(Ticket(peer, g.peers[peer].number, reopened.epoch))
         && reopened.epoch > g.epoch
  {
    var locked := Step(g, Lock).0;
    LockKept(locked, ops);
    UnconcernedStays(locked, ops, peer);
    hide Run;
    hide Undisturbed;
  }
}
