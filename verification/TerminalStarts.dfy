/** Which Dens a start takes into service, and that it takes them as they are. */
module TerminalStarts {
  import opened Basics
  import opened LocalFs
  import opened Tombstones
  import opened Terminal
  import opened TerminalTheorems
  import opened TerminalRuns
  import Chains
  import ChainDecisions
  import ChainTheorems
  import Governance
  import PD = ProtectedDocuments
  import PS = ProtectedState
  import Statements

  /** The member's key, if it has one, was not revoked and, once the network is active, is on the roster; a
      member without a key may stay only before activation. */
  ghost predicate MayStay(env: Env, head: Governance.Head, peer: PD.PeerRecord) {
    && (peer.publicKey.Some? ==> env.store.formats.key(peer.publicKey.value) !in head.revoked)
    && (head.activatedAt.Some? ==>
          peer.publicKey.Some? && env.store.formats.key(peer.publicKey.value) in head.roster)
  }

  /** A Den without a Tombstone that a node can serve from: everything in it reads, and the committed head, if
      there is one, lives and lets every Pack member stay. */
  ghost predicate Serviceable(env: Env, files: Files) {
    var loaded := PS.Load(env.store, files);
    && !loaded.Refused?
    && (loaded.Legacy? ==> LegacyReads(env, files))
    && ExtrasRead(env, files)
    && (loaded.Loaded? && loaded.state.governance.Some? ==>
          && loaded.state.governance.value.deadAt.None?
          && forall peer :: peer in loaded.state.peers ==> MayStay(env, loaded.state.governance.value, peer))
  }

  lemma {:induction false} ExcludedExactly(env: Env, head: Governance.Head, peer: PD.PeerRecord)
    ensures Excludes(env, head, peer) <==> !MayStay(env, head, peer)
  {
  }

  lemma {:induction false} ShutsExactly(env: Env, loaded: PS.Loaded)
    requires loaded.Loaded? && loaded.state.governance.Some?
    ensures Shuts(env, loaded) <==>
      !(forall peer :: peer in loaded.state.peers ==> MayStay(env, loaded.state.governance.value, peer))
  {
    hide Excludes;
    hide MayStay;
    var head, peers := loaded.state.governance.value, loaded.state.peers;
    forall i | 0 <= i < |peers| ensures Excludes(env, head, peers[i]) <==> !MayStay(env, head, peers[i]) {
      ExcludedExactly(env, head, peers[i]);
    }
    if !Shuts(env, loaded) {
      forall peer | peer in peers ensures MayStay(env, head, peer) {
        var i :| 0 <= i < |peers| && peers[i] == peer;
      }
    }
  }

  lemma {:induction false} AliveExactly(env: Env, files: Files)
    ensures DeadHead(env, files).Alive? <==> Serviceable(env, files)
  {
    var loaded := PS.Load(env.store, files);
    if loaded.Loaded? && loaded.state.governance.Some? {
      ShutsExactly(env, loaded);
    }
    hide PS.Load;
    hide LegacyReads;
    hide ExtrasRead;
    hide MayStay;
    hide Excludes;
    hide Deceased;
  }

  /** A start in which nothing fails takes a Den into service exactly when it has no Tombstone and is
      serviceable, and then changes nothing in it but an empty lock; whatever fails, no other Den is ever taken
      into service. */
  lemma {:induction false} ServedExactly(env: Env, before: Files, faults: seq<Fault>)
    requires env.Faithful()
    ensures var (w, s) := Start(env, Started(before, faults));
      && (s.Unmarked? ==> TombstoneFile() !in before && Serviceable(env, before) && Fresh(w, before))
      && (faults == [] && TombstoneFile() !in before && Serviceable(env, before) ==> s.Unmarked?)
  {
    AliveExactly(env, before);
    hide Serviceable;
    StartEnds(env, Started(before, faults), before);
    if faults == [] && TombstoneFile() !in before && Serviceable(env, before) {
      HealthyStart(env, before);
    }
    hide Start;
    hide DeadHead;
    hide Env.Faithful;
    hide TombstoneFile;
    hide Fresh;
    hide Resolves;
    hide LifeGuarded;
  }

  lemma {:induction false} HealthyStart(env: Env, before: Files)
    requires env.Faithful() && TombstoneFile() !in before && DeadHead(env, before).Alive?
    ensures Start(env, Started(before, [])).1.Unmarked?
  {
    var w := Started(before, []);
    LockTaken(w, before);
    var w1 := TakeLock(w).0;
    AtStartupEnds(env, w1, before);
    var w2 := AtStartup(env, w1).0;
    hide TakeLock;
    hide AtStartup;
    hide TombstoneFile;
    hide LockFile;
    hide Resolves;
    hide LifeGuarded;
    hide Marked;
    FreshBut(w2, before);
    DeadHeadIgnoresLock(env, w2.view, before);
    hide DeadHead;
    hide Fresh;
    hide Bury;
    hide Env.Faithful;
  }

  /** Under a head that came about by applying statements, a member with a key may stay exactly when that key
      was never revoked and, after an activation, was admitted. */
  lemma {:induction false} MembersStayByTheChain(
      env: Env, c: Governance.Crypto, inputs: seq<ChainTheorems.Input>, peer: PD.PeerRecord)
    requires ChainTheorems.Run(c, inputs).Some? && peer.publicKey.Some?
    ensures var cores := Chains.Cores(ChainTheorems.LogOf(c, inputs));
      var key := env.store.formats.key(peer.publicKey.value);
      MayStay(env, ChainTheorems.Run(c, inputs).value, peer) <==>
        && key !in Chains.RevokedBy(cores)
        && (ChainDecisions.HasActivated(cores) ==> key in Chains.AdmittedBy(cores))
  {
    var head := ChainTheorems.Run(c, inputs).value;
    var key := env.store.formats.key(peer.publicKey.value);
    ChainDecisions.ReachableReflects(c, inputs);
    hide ChainTheorems.Run;
    hide ChainTheorems.LogOf;
    hide Chains.KeysAt;
    hide Chains.RevokedBy;
    hide Chains.AdmittedBy;
    hide ChainDecisions.HasActivated;
    hide Governance.KeysBefore;
    assert key in head.revoked <==> key in Elems(head.revoked);
    assert key in head.roster <==> key in Elems(head.roster);
  }

  // ---------------------------------------------------------------- which death is acted on

  /** The archive holds, under the head's own sequence, the encoding of a death statement with its hash. */
  ghost predicate Archived(env: Env, files: Files, head: Governance.Head, st: Statements.Statement) {
    && st.core.body.Death? && env.tomb.hash(st.core) == head.hash && Statements.Encodable(st)
    && Lookup(files, ArchiveName(head.sequence)) == Some(Statements.EncodeStatement(st))
  }

  lemma {:induction false} ArchivedExactly(env: Env, files: Files, head: Governance.Head, st: Statements.Statement)
    ensures ArchivedDeath(env, files, head.sequence, head.hash) == Some(st) <==> Archived(env, files, head, st)
  {
    hide ArchiveName;
    hide Statements.Decode;
    hide Statements.EncodeStatement;
    var name := ArchiveName(head.sequence);
    Statements.RoundTripIff(st);
    if name in files {
      Statements.DecodeExact(files[name]);
    }
  }

  /** The Tombstone a committed dead head calls for carries exactly the death statement archived for it. */
  lemma {:induction false} DeathIsTheRecordedOne(env: Env, files: Files, t: Tombstone)
    ensures CommittedDeath(env, files) == Some(t) <==>
      var head := CommittedHead(PS.Load(env.store, files));
      && head.Some? && head.value.deadAt.Some?
      && t.death.Some? && Archived(env, files, head.value, t.death.value)
      && t.destruction == Incomplete && t.software == env.software && ValidSoftware(t.software)
      && Encode(env.tomb, t).Some?
  {
    hide PS.Load;
    hide CommittedHead;
    hide Archived;
    var head := CommittedHead(PS.Load(env.store, files));
    if head.Some? && head.value.deadAt.Some? {
      DeceasedExactly(env, files, head.value, t);
    }
    hide Deceased;
    hide Encode;
    hide ValidSoftware;
  }

  lemma {:induction false} DeceasedExactly(env: Env, files: Files, head: Governance.Head, t: Tombstone)
    ensures Deceased(env, files, head) == Dead(t) <==>
      && t.death.Some? && Archived(env, files, head, t.death.value)
      && t.destruction == Incomplete && t.software == env.software && ValidSoftware(t.software)
      && Encode(env.tomb, t).Some?
  {
    hide ArchivedDeath;
    hide Encode;
    hide ValidSoftware;
    var found := ArchivedDeath(env, files, head.sequence, head.hash);
    if found.Some? {
      ArchivedExactly(env, files, head, found.value);
      assert found.value.core.body.Death? by {
        assert Archived(env, files, head, found.value);
      }
    }
    if t.death.Some? {
      ArchivedExactly(env, files, head, t.death.value);
    }
    hide Archived;
  }
}
