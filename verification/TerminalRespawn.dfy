/** A process that comes back without the machine going down still sees what was never synced. */
module TerminalRespawn {
  import opened Basics
  import opened LocalFs
  import opened Tombstones
  import opened Terminal
  import opened TerminalSteps
  import opened TerminalTheorems

  /** The same directory, visible and synced as it was, under a new process. */
  function Respawned(w: World, faults: seq<Fault>): World {
    w.(faults := faults, up := true)
  }

  /** However finishing goes from here, whatever a machine restart finds has a Tombstone, or every entry
      but the lock and the Tombstone is as it was synced. */
  ghost predicate Safe(env: Env, w: World, t: Tombstone) {
    forall faults, files :: Resolves(Finish(env, Respawned(w, faults), t).0, files) ==> Accounted(env, w, files)
  }

  ghost predicate Accounted(env: Env, w: World, files: Files) {
    Marked(env, files).Some? || SameBut(files, w.synced, {LockFile(), TombstoneFile()})
  }

  lemma {:induction false} SyncedIsSafe(env: Env, w: World, t: Tombstone, bytes: seq<Byte>)
    requires env.Faithful() && Sound(t) && Encode(env.tomb, Unfinished(t)) == Some(bytes) && Under(w, bytes)
    ensures Safe(env, w, t)
  {
    hide Env.Faithful;
    hide Sound;
    hide Encode;
    hide Finish;
    hide Marked;
    hide Clean;
    hide IsTemporary;
    hide Resolves;
    forall faults, files | Resolves(Finish(env, Respawned(w, faults), t).0, files) ensures Accounted(env, w, files) {
      FinishEnds(env, Respawned(w, faults), t, bytes);
      assert Stands(env, files, t);
    }
  }

  /** The first destruction done, and the process gone at the next operation. */
  const CRASH_AFTER_ONE := [Works, Fails(false, true, "", [])]

  lemma {:induction false} OneDestroyed(env: Env, w: World, t: Tombstone)
    requires PeltFile() in w.view
    ensures var w' := Finish(env, Respawned(w, CRASH_AFTER_ONE), t).0;
      w'.view == w.view - {PeltFile()} && w'.synced == Overwritten(w.synced, PeltFile(), Zeros(|w.view[PeltFile()]|))
  {
    hide PeltFile;
    hide DenIsClean;
    hide Mark;
    hide Encode;
    hide DestroyAll;
    hide SettleLock;
    var start := Respawned(w, CRASH_AFTER_ONE);
    var (w1, ok) := Destroy(start, PeltFile());
    assert ok && w1.faults == [Fails(false, true, "", [])];
    assert DestroyListed(env, w1, IsSecurityState).1 == false;
  }

  /** With the Tombstone visible but not synced, one destruction and a power loss leave a Den that has lost
      an entry and has no Tombstone. */
  lemma {:induction false} UnsyncedIsUnsafe(env: Env, w: World, t: Tombstone)
    requires TombstoneFile() !in w.synced
    requires PeltFile() in w.view && PeltFile() in w.synced && w.synced[PeltFile()] == w.view[PeltFile()]
    requires w.view[PeltFile()] != Zeros(|w.view[PeltFile()]|)
    ensures !Safe(env, w, t)
  {
    DenNames();
    PeltIsPlain();
    OneDestroyed(env, w, t);
    var w' := Finish(env, Respawned(w, CRASH_AFTER_ONE), t).0;
    hide Finish;
    hide TombstoneFile;
    hide LockFile;
    hide PeltFile;
    hide IsTemporary;
    hide Parse;
    var files := w'.synced;
    assert Resolves(w', files);
    assert Lookup(files, PeltFile()) != Lookup(w.synced, PeltFile());
    assert !Accounted(env, w, files);
  }

  lemma {:induction false} PeltIsPlain()
    ensures !IsTemporary(PeltFile())
  {
    assert PeltFile()[..7][0] != ".state-"[0];
  }

  /** A process-only restart may act on the Tombstone it sees exactly when that Tombstone is also synced. */
  lemma {:induction false} RespawnSafeIff(env: Env, w: World, t: Tombstone, bytes: seq<Byte>)
    requires env.Faithful() && Sound(t) && Encode(env.tomb, Unfinished(t)) == Some(bytes)
    requires Lookup(w.view, TombstoneFile()) == Some(bytes)
    requires Lookup(w.synced, TombstoneFile()) in {None, Some(bytes)}
    requires PeltFile() in w.view && PeltFile() in w.synced && w.synced[PeltFile()] == w.view[PeltFile()]
    requires w.view[PeltFile()] != Zeros(|w.view[PeltFile()]|)
    ensures Safe(env, w, t) <==> TombstoneFile() in w.synced
  {
    hide Env.Faithful;
    hide Sound;
    hide Encode;
    hide Safe;
    hide TombstoneFile;
    hide PeltFile;
    if TombstoneFile() in w.synced {
      SyncedIsSafe(env, w, t, bytes);
    } else {
      UnsyncedIsUnsafe(env, w, t);
    }
  }
}
