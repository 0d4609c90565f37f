/** Archiving a death, committing the dead head and dying, as one course of events. */
module TerminalCommits {
  import opened Basics
  import opened LocalFs
  import opened Tombstones
  import opened Terminal
  import opened TerminalSteps
  import opened TerminalTheorems
  import opened TerminalMutations
  import opened TerminalRuns
  import opened TerminalDeaths
  import Governance
  import Statements
  import PD = ProtectedDocuments
  import PS = ProtectedState
  import PT = ProtectedTheorems

  // ---------------------------------------------------------------- what a commit leaves alone

  ghost predicate OutsideSame(a: Files, b: Files) {
    forall name :: !IsTemporary(name) && !StoreName(name) ==> Lookup(a, name) == Lookup(b, name)
  }

  lemma {:induction false} SlotWriteOutside(f: PS.Store, w: World, g: PS.Generation, s: PD.State)
    requires Quiet(w)
    ensures var (w', o) := PS.WriteSlot(f, w, g, s);
      && OutsideSame(w'.view, w.view) && OutsideSame(w'.synced, w.view) && (o != Indeterminate ==> Quiet(w'))
  {
    hide PD.DocumentsOf;
    hide IsTemporary;
    if PD.DocumentsOf(f.formats, s).Some? {
      var d := PD.DocumentsOf(f.formats, s).value;
      PT.SlotWritesNames(f, g, d);
      PT.WriteAllEnds(w, PS.SlotWrites(f, g, d), PT.SlotNames(g.slot));
      hide PS.SlotFile;
      hide PS.CurrentFile;
      hide PS.WriteAll;
      hide PS.SlotWrites;
      forall name | name in PT.SlotNames(g.slot) ensures StoreName(name) {
      }
    }
  }

  lemma {:induction false} SelectorOutside(f: PS.Store, w: World, base: Files, next: PS.Generation)
    requires Quiet(w) && OutsideSame(w.view, base)
    ensures var (w', o) := Replace(w, PS.CurrentFile(), PS.Pointer(f, next), false);
      && OutsideSame(w'.view, base) && OutsideSame(w'.synced, base)
      && (o == Durable ==> w'.view == w'.synced && w'.up)
  {
    PS.NamesDiffer();
    hide PS.SlotFile;
    hide PS.ModeFile;
    hide IsTemporary;
    hide PS.Pointer;
    ReplaceEnds(w, PS.CurrentFile(), PS.Pointer(f, next), false);
    hide Replace;
    assert StoreName(PS.CurrentFile());
    hide StoreName;
    hide PS.CurrentFile;
  }

  lemma {:induction false} SameOutside(w: World)
    requires Quiet(w)
    ensures OutsideSame(w.view, w.view) && OutsideSame(w.synced, w.view)
  {
    hide IsTemporary;
    hide StoreName;
  }

  /** A commit, however it ends, changes only the store's own files; activated, it leaves nothing unsynced. */
  lemma {:induction false} CommitOutside(f: PS.Store, w: World, current: U64, s: PD.State)
    requires Quiet(w)
    ensures var (w', t) := PS.Commit(f, w, current, s);
      && OutsideSame(w'.view, w.view) && OutsideSame(w'.synced, w.view)
      && (t.Activated? ==> w'.view == w'.synced && w'.up)
  {
    PT.ReadingQuiet(w);
    SameOutside(w);
    hide Quiet;
    hide OutsideSame;
    hide PS.LoadCurrent;
    hide PS.WriteSlot;
    var observed := PS.LoadCurrent(f, w.view);
    if w.up && NextFault(w).Works? && observed.Selects? && observed.generation.number == current && current != U64_MAX {
      var next := PS.Next(observed.generation);
      SlotWriteOutside(f, PS.Reading(w), next, s);
      var (w1, o) := PS.WriteSlot(f, PS.Reading(w), next, s);
      if o == Durable {
        SelectorOutside(f, w1, w.view, next);
      }
    }
    hide Replace;
  }

  // ---------------------------------------------------------------- the archived death

  /** The archive holds the death statement of `head`, and its Tombstone fits. */
  ghost predicate Recorded(env: Env, files: Files, head: Governance.Head, t: Tombstone) {
    head.deadAt.Some? && Deceased(env, files, head) == Dead(t)
  }

  lemma {:induction false} ArchiveOutside(sequence: nat)
    ensures !IsTemporary(ArchiveName(sequence)) && !StoreName(ArchiveName(sequence))
  {
    ArchiveNamed(sequence);
    assert ArchiveName(sequence)[0] == 'g';
    forall slot, doc ensures ArchiveName(sequence) != PS.SlotFile(slot, doc) {
      PS.SlotFileMarks(slot, doc);
    }
    assert PS.CurrentFile()[0] == 's';
  }

  lemma {:induction false} TombstoneOutside()
    ensures !IsTemporary(TombstoneFile()) && !StoreName(TombstoneFile())
  {
    DenNames();
    assert TombstoneFile()[0] == 't';
    forall slot, doc ensures TombstoneFile() != PS.SlotFile(slot, doc) {
      PS.SlotFileMarks(slot, doc);
    }
    assert PS.CurrentFile()[0] == 's';
  }

  lemma {:induction false} RecordedStays(env: Env, a: Files, b: Files, head: Governance.Head, t: Tombstone)
    requires Recorded(env, a, head, t) && OutsideSame(b, a)
    ensures Recorded(env, b, head, t)
  {
    ArchiveOutside(head.sequence);
    hide IsTemporary;
    hide StoreName;
    hide ArchiveName;
    assert Lookup(b, ArchiveName(head.sequence)) == Lookup(a, ArchiveName(head.sequence));
    hide Statements.Decode;
    hide MakeDeath;
  }

  /** A directory whose active generation carries a recorded death is doomed. */
  lemma {:induction false} ActiveDeathDooms(env: Env, files: Files, g: PS.Generation, s: PD.State, t: Tombstone)
    requires PT.Holds(env.store, files, g, PS.Loaded(g, s)) && s.governance.Some?
    requires Recorded(env, files, s.governance.value, t) && TombstoneFile() !in files
    ensures CommittedDeath(env, files) == Some(t) && Doomed(env, files, t)
  {
    PT.HoldsLoads(env.store, files, g, PS.Loaded(g, s));
    hide PS.Load;
    hide Deceased;
    hide TombstoneFile;
  }

  /** Committing a dead head whose death is archived: once activated the Den is doomed; and while the commit
      is in doubt every restart finds the old generation or a doomed Den. */
  lemma {:induction false} CommittedDeathDooms(
      env: Env, w: World, g: PS.Generation, loaded: PS.Loaded, s: PD.State, t: Tombstone)
    requires env.store.Faithful() && Quiet(w) && PT.Holds(env.store, w.view, g, loaded)
    requires s.governance.Some? && Recorded(env, w.view, s.governance.value, t) && TombstoneFile() !in w.view
    requires PD.TP.WellFormed(s.policy) && PD.TP.Readable(s.policy) && PD.DocumentsOf(env.store.formats, s).Some?
    ensures var (w', r) := PS.Commit(env.store, w, g.number, s);
      && (r.Activated? ==> Doomed(env, w'.view, t) && Fresh(w', w'.view) && TombstoneFile() !in w'.view)
      && (forall files :: Resolves(w', files) ==> PT.Holds(env.store, files, g, loaded) || Doomed(env, files, t))
  {
    var (w', r) := PS.Commit(env.store, w, g.number, s);
    PT.CommitEnds(env.store, w, g, loaded, g.number, s);
    CommitOutside(env.store, w, g.number, s);
    TombstoneOutside();
    hide PS.Commit;
    hide PT.Holds;
    hide Recorded;
    hide TombstoneFile;
    hide StoreName;
    hide IsTemporary;
    hide Doomed;
    if g.number < U64_MAX {
      CommittedLoads(env.store, PS.Next(g), s);
      if r.Rejected? {
        PT.QuietRestarts(env.store, w', g, loaded);
      }
      hide PT.After;
      hide PD.DocumentsOf;
      hide PD.TP.WellFormed;
      hide PD.TP.Readable;
      forall files |
        && (Resolves(w', files) || files == w'.view)
        && PT.Holds(env.store, files, PS.Next(g), PT.After(env.store, PS.Next(g), s))
        ensures Doomed(env, files, t)
      {
        assert OutsideSame(files, w.view);
        assert Lookup(files, TombstoneFile()) == Lookup(w.view, TombstoneFile());
        RecordedStays(env, w.view, files, s.governance.value, t);
        ActiveDeathDooms(env, files, PS.Next(g), PD.Normal(s), t);
      }
      if r.Activated? {
        assert Lookup(w'.view, TombstoneFile()) == Lookup(w.view, TombstoneFile());
        PT.QuietRestarts(env.store, w', PS.Next(g), PT.After(env.store, PS.Next(g), s));
      }
    } else {
      PT.QuietRestarts(env.store, w', g, loaded);
    }
  }

  lemma {:induction false} CommittedLoads(f: PS.Store, g: PS.Generation, s: PD.State)
    requires f.Faithful() && PD.DocumentsOf(f.formats, s).Some?
    requires PD.TP.WellFormed(s.policy) && PD.TP.Readable(s.policy)
    ensures PT.After(f, g, s) == PS.Loaded(g, PD.Normal(s)) && PD.Normal(s).governance == s.governance
  {
    PD.StateReadsBack(f.formats, s);
    hide PD.DocumentsOf;
    hide PD.ParseDocuments;
    hide PD.TP.WellFormed;
    hide PD.TP.Readable;
  }

  /** The whole course: the dead head is activated, the node dies with any failures, restarts any number of
      times with any failures, and the first start in which nothing fails completes the destruction. */
  lemma {:induction false} DeathRunsItsCourse(
      env: Env, w: World, g: PS.Generation, loaded: PS.Loaded, s: PD.State, t: Tombstone,
      faults: seq<Fault>, found: Files, lives: seq<Life>)
    requires env.Faithful() && env.store.Faithful() && Quiet(w) && PT.Holds(env.store, w.view, g, loaded)
    requires s.governance.Some? && Recorded(env, w.view, s.governance.value, t) && TombstoneFile() !in w.view
    requires PD.TP.WellFormed(s.policy) && PD.TP.Readable(s.policy) && PD.DocumentsOf(env.store.formats, s).Some?
    requires PS.Commit(env.store, w, g.number, s).1.Activated?
    requires ExtrasRead(env, PS.Commit(env.store, w, g.number, s).0.view)
    requires Resolves(Bury(env, PS.Commit(env.store, w, g.number, s).0.(faults := faults), t).0, found)
    requires Sane(lives) && History(env, found, lives)
    ensures var (w', r) := Start(env, Started(Last(found, lives), []));
      r == Exits(Complete) && Clean(w'.view) && Marked(env, w'.view) == Some(Finished(t))
  {
    CommittedDeathDooms(env, w, g, loaded, s, t);
    var dying := PS.Commit(env.store, w, g.number, s).0;
    hide PS.Commit;
    hide PT.Holds;
    hide Recorded;
    hide PD.DocumentsOf;
    hide PD.TP.WellFormed;
    hide PD.TP.Readable;
    hide PS.Store.Faithful;
    DyingStaysBound(env, dying, t, faults, found);
    hide Env.Faithful;
    hide Bury;
    hide Sane;
    hide History;
    hide Start;
    hide Clean;
    hide Marked;
    hide Resolves;
    hide ExtrasRead;
    hide Encode;
    hide Bound;
    BoundIsFinal(env, found, lives, t);
    OneStartFinishes(env, Last(found, lives), t);
  }

  /** Dying from a doomed directory leaves the next start bound to finish. */
  lemma {:induction false} DyingStaysBound(env: Env, w: World, t: Tombstone, faults: seq<Fault>, found: Files)
    requires env.Faithful() && Doomed(env, w.view, t) && Fresh(w, w.view) && TombstoneFile() !in w.view
    requires ExtrasRead(env, w.view) && Resolves(Bury(env, w.(faults := faults), t).0, found)
    ensures Bound(env, found, t) && Encode(env.tomb, Unfinished(t)).Some?
  {
    CommittedDeathSound(env, w.view);
    var u := CommittedDeath(env, w.view).value;
    hide Encode;
    DeadTombstone(env, w.view, t);
    hide CommittedDeath;
    hide HeadIsDead;
    SameView(w, w.(faults := faults), w.view);
    hide Fresh;
    BuryEnds(env, w.(faults := faults), w.view, t);
    hide Bury;
    hide Resolves;
    hide Env.Faithful;
    hide Sound;
    if Untouched(w.view, found) {
      DoomUntouched(env, w.view, found, t);
      ExtrasIgnoreLock(env, found, w.view);
    } else {
      DoomStands(env, found, t, t);
      StandsHasTombstone(env, found, t);
    }
    hide Doomed;
    hide ExtrasRead;
    hide TombstoneFile;
    BoundIff(env, found, t);
  }

  lemma {:induction false} DeadTombstone(env: Env, files: Files, t: Tombstone)
    requires Doomed(env, files, t) && TombstoneFile() !in files
    requires CommittedDeath(env, files).Some? && Sound(CommittedDeath(env, files).value)
    ensures Unfinished(t) == Unfinished(CommittedDeath(env, files).value) && Sound(t)
  {
    hide CommittedDeath;
    hide TombstoneFile;
    hide Marked;
    hide Statements.Encodable;
  }
}
