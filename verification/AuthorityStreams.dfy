/** A gated stream over a run of everything that can happen to it and to the gate. */
module AuthorityStreams {
  import opened Basics
  import opened AuthorityGate
  import opened AuthorityProgress

  /** The gate, the lease installed on the stream, and the bytes it has handed over. */
  datatype Wire = Wire(gate: Gate, lease: Option<U64>, written: seq<Byte>)

  datatype Act =
    | Operate(op: Op)
    | Install(id: U64)
    | Poll(bytes: seq<Byte>, accepted: nat)

  /** Writes are free until a lease is installed and gated from then on. */
  predicate Flows(w: Wire) {
    w.lease.None? || Step(w.gate, Submit(w.lease.value)).1 == Done
  }

  /** What the socket takes of one poll. */
  function Taken(bytes: seq<Byte>, accepted: nat): seq<Byte> {
    if accepted <= |bytes| then bytes[..accepted] else bytes
  }

  function StepWire(w: Wire, act: Act): Wire {
    match act
    case Operate(op) => w.(gate := Step(w.gate, op).0)
    case Install(id) => if w.lease.None? then w.(lease := Some(id)) else w
    case Poll(bytes, accepted) =>
      if Flows(w) then w.(written := w.written + Taken(bytes, accepted)) else w
  }

  ghost function RunWire(w: Wire, acts: seq<Act>): Wire {
    if acts == [] then w else StepWire(RunWire(w, acts[..|acts| - 1]), acts[|acts| - 1])
  }

  /** The gate operations of a run. */
  ghost function OpsOf(acts: seq<Act>): seq<Op> {
    if acts == [] then []
    else
      var last := acts[|acts| - 1];
      OpsOf(acts[..|acts| - 1]) + if last.Operate? then [last.op] else []
  }

  /** The stream's own acts leave the gate alone. */
  lemma {:induction false} GateOfRun(w: Wire, acts: seq<Act>)
    ensures RunWire(w, acts).gate == Run(w.gate, OpsOf(acts))
  {
    if acts != [] {
      var init, last := acts[..|acts| - 1], acts[|acts| - 1];
      GateOfRun(w, init);
      if last.Operate? {
        assert OpsOf(acts)[..|OpsOf(acts)| - 1] == OpsOf(init);
      } else {
        assert OpsOf(acts) == OpsOf(init);
      }
    }
  }

  /** A lease, once installed, is never replaced, and nothing handed over is taken back. */
  lemma {:induction false} LeaseIsFinal(w: Wire, acts: seq<Act>)
    ensures w.lease.Some? ==> RunWire(w, acts).lease == w.lease
    ensures w.written <= RunWire(w, acts).written
  {
    if acts != [] {
      LeaseIsFinal(w, acts[..|acts| - 1]);
    }
  }

  /** The session exists and its ticket authorizes work now. */
  predicate Speaks(g: Gate, id: U64) {
    id in g.sessions && g.Current(g.sessions[id].ticket)
  }

  /** Byte `k` of the output was handed over by act `i`, as part of what that poll offered. */
  ghost predicate HandedOver(w: Wire, acts: seq<Act>, i: nat, k: nat)
    requires i < |acts|
  {
    var before := RunWire(w, acts[..i]);
    && acts[i].Poll?
    && |before.written| <= k < |before.written| + |acts[i].bytes|
    && k < |RunWire(w, acts).written|
    && RunWire(w, acts).written[k] == acts[i].bytes[k - |before.written|]
  }

  lemma {:induction false} HandedOverLater(w: Wire, acts: seq<Act>, i: nat, k: nat)
    requires acts != [] && i < |acts| - 1 && HandedOver(w, acts[..|acts| - 1], i, k)
    ensures HandedOver(w, acts, i, k)
  {
    assert acts[..|acts| - 1][..i] == acts[..i];
  }

  /** Every byte handed over once a lease is installed was offered by some poll, and at that poll the
      session of the lease existed under the ticket it was reserved with, and that ticket was current. */
  lemma {:induction false} EveryByteWasCurrent(w: Wire, acts: seq<Act>, id: U64, k: nat) returns (i: nat)
    requires Inv(w.gate) && w.lease == Some(id) && id < w.gate.next
    requires |w.written| <= k < |RunWire(w, acts).written|
    ensures i < |acts| && HandedOver(w, acts, i, k)
    ensures var g := RunWire(w, acts[..i]).gate;
      Speaks(g, id) && id in w.gate.sessions && g.sessions[id].ticket == w.gate.sessions[id].ticket
  {
    hide Inv;
    hide Step;
    var init, last := acts[..|acts| - 1], acts[|acts| - 1];
    var before := RunWire(w, init);
    if k < |before.written| {
      i := EveryByteWasCurrent(w, init, id, k);
      HandedOverLater(w, acts, i, k);
      assert init[..i] == acts[..i];
    } else {
      i := |acts| - 1;
      LeaseIsFinal(w, init);
      GateOfRun(w, init);
      SessionTicketFixed(w.gate, OpsOf(init), id);
      LeasesWork(before.gate, id);
      assert acts[..i] == init;
    }
  }

  /** After a lock or a denial the stream hands over nothing more, whatever happens to it and to the gate. */
  lemma {:induction false} RevokedIsMute(w: Wire, op: Op, acts: seq<Act>, id: U64)
    requires Inv(w.gate) && w.lease == Some(id) && id in w.gate.sessions
    requires op == Lock || op == Deny(Some(w.gate.sessions[id].ticket.peer))
    ensures RunWire(StepWire(w, Operate(op)), acts).written == w.written
  {
    var after := StepWire(w, Operate(op));
    if acts != [] {
      var init := acts[..|acts| - 1];
      RevokedIsMute(w, op, init, id);
      LeaseIsFinal(after, init);
      GateOfRun(after, init);
      RevokedSessionsAreSilent(w.gate, op, OpsOf(init), id);
      hide Step;
      hide Inv;
    }
  }

  /** A stream whose session works keeps writing: after any run a poll hands over exactly what the socket
      takes, unless the lease was dropped or a lock, a reopening or the denial of its peer came between. Before
      any lease every poll does. */
  lemma {:induction false} PollsDeliver(w: Wire, acts: seq<Act>, bytes: seq<Byte>, accepted: nat)
    requires Inv(w.gate) && (w.lease.Some? ==> Speaks(w.gate, w.lease.value)) && accepted <= |bytes|
    ensures var before := RunWire(w, acts);
      StepWire(before, Poll(bytes, accepted)).written ==
        if before.lease.None? || Flows(before) then before.written + bytes[..accepted] else before.written
    ensures w.lease.Some? ==>
      var id := w.lease.value;
      Flows(RunWire(w, acts)) <==>
        DropLease(id) !in OpsOf(acts) && !EndedIn(w.gate, OpsOf(acts), w.gate.sessions[id].ticket.peer)
  {
    GateOfRun(w, acts);
    LeaseIsFinal(w, acts);
    hide RunWire;
    hide OpsOf;
    if w.lease.Some? {
      SessionsWorkUntil(w.gate, OpsOf(acts), w.lease.value);
    }
    hide Run;
    hide Step;
    hide Inv;
    hide EndedIn;
  }
}
