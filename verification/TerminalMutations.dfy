/** Commits made while a node lives, and what they leave alone. */
module TerminalMutations {
  import opened Basics
  import opened LocalFs
  import opened Tombstones
  import opened Terminal
  import opened TerminalSteps
  import opened TerminalTheorems
  import PD = ProtectedDocuments
  import PS = ProtectedState

  /** A name under which the two-slot store keeps a file. */
  ghost predicate StoreName(name: string) {
    name == PS.CurrentFile() || exists slot, doc :: name == PS.SlotFile(slot, doc)
  }

  /** Nothing changed but temporaries, the lock and the store's own files. */
  ghost predicate Spared(before: Files, files: Files) {
    forall name :: !IsTemporary(name) && name != LockFile() && !StoreName(name) ==>
      Lookup(files, name) == Lookup(before, name)
  }

  /** Spared in view and on disk. */
  ghost predicate Sparing(w: World, before: Files) {
    Spared(before, w.view) && Spared(before, w.synced)
  }

  lemma {:induction false} UntouchedIsSpared(before: Files, files: Files)
    requires Untouched(before, files)
    ensures Spared(before, files)
  {
    hide IsTemporary;
    hide LockFile;
    hide StoreName;
  }

  lemma {:induction false} SparedFurther(a: Files, b: Files, c: Files)
    requires Spared(a, b) && Spared(b, c)
    ensures Spared(a, c)
  {
    hide IsTemporary;
    hide LockFile;
    hide StoreName;
  }

  lemma {:induction false} FreshSpares(w: World, before: Files)
    requires Fresh(w, before)
    ensures Sparing(w, before)
  {
    hide IsTemporary;
    hide LockFile;
    hide StoreName;
  }

  lemma {:induction false} SparedResolves(w: World, before: Files, files: Files)
    requires Sparing(w, before) && Resolves(w, files)
    ensures Spared(before, files)
  {
    hide IsTemporary;
    hide LockFile;
    hide StoreName;
  }

  // ---------------------------------------------------------------- commits

  lemma {:induction false} ReplaceSpares(w: World, before: Files, name: string, data: seq<Byte>)
    requires Sparing(w, before) && StoreName(name)
    ensures Sparing(Replace(w, name, data, false).0, before)
  {
    if NextFault(w).Fails? {
      TemporariesMarked(NextFault(w).suffix);
    }
    hide IsTemporary;
    hide TemporaryName;
    hide LockFile;
    hide StoreName;
  }

  lemma {:induction false} WriteAllSpares(w: World, before: Files, writes: PS.Writes)
    requires Sparing(w, before) && forall i :: 0 <= i < |writes| ==> StoreName(writes[i].0)
    ensures Sparing(PS.WriteAll(w, writes).0, before)
    decreases |writes|
  {
    hide Sparing;
    hide StoreName;
    if writes != [] {
      ReplaceSpares(w, before, writes[0].0, writes[0].1);
      var (w', o) := Replace(w, writes[0].0, writes[0].1, false);
      hide Replace;
      if o == Durable {
        WriteAllSpares(w', before, writes[1..]);
      }
    }
  }

  lemma {:induction false} SlotSpares(f: PS.Store, w: World, before: Files, g: PS.Generation, s: PD.State)
    requires Sparing(w, before)
    ensures Sparing(PS.WriteSlot(f, w, g, s).0, before)
  {
    hide Sparing;
    hide PD.DocumentsOf;
    hide PS.SlotFile;
    hide PS.CurrentFile;
    hide PS.ManifestOf;
    if PD.DocumentsOf(f.formats, s).Some? {
      var writes := PS.SlotWrites(f, g, PD.DocumentsOf(f.formats, s).value);
      forall i | 0 <= i < |writes| ensures StoreName(writes[i].0) {
        assert exists doc :: writes[i].0 == PS.SlotFile(g.slot, doc);
      }
      hide PS.WriteAll;
      hide PS.SlotWrites;
      WriteAllSpares(w, before, writes);
    }
  }

  lemma {:induction false} CommitSpares(f: PS.Store, w: World, before: Files, current: U64, s: PD.State)
    requires Sparing(w, before)
    ensures Sparing(PS.Commit(f, w, current, s).0, before)
  {
    assert Sparing(PS.Reading(w), before);
    hide Sparing;
    hide PS.LoadCurrent;
    hide PS.WriteSlot;
    var observed := PS.LoadCurrent(f, w.view);
    if observed.Selects? && observed.generation.number != U64_MAX {
      var next := PS.Next(observed.generation);
      SlotSpares(f, PS.Reading(w), before, next, s);
      assert StoreName(PS.CurrentFile());
      hide StoreName;
      ReplaceSpares(PS.WriteSlot(f, PS.Reading(w), next, s).0, before, PS.CurrentFile(), PS.Pointer(f, next));
      hide Replace;
    }
  }

  /** Whatever a living node commits, and however its commits fail, all other files stay as they are. */
  lemma {:induction false} CommitsSpare(f: PS.Store, w: World, before: Files, mutations: seq<Mutation>)
    requires Sparing(w, before)
    ensures Sparing(Mutated(f, w, mutations), before)
    decreases |mutations|
  {
    hide Sparing;
    hide PS.Commit;
    if mutations != [] {
      CommitSpares(f, w, before, mutations[0].current, mutations[0].state);
      CommitsSpare(f, PS.Commit(f, w, mutations[0].current, mutations[0].state).0, before, mutations[1..]);
    }
  }

  // ---------------------------------------------------------------- dying afterwards

  /** No entry from nowhere. */
  ghost predicate NamesSpared(before: Files, files: Files) {
    forall n :: n in files ==> IsTemporary(n) || Kept(n) || StoreName(n) || n in before
  }

  lemma {:induction false} SparedNames(before: Files, files: Files)
    requires Spared(before, files)
    ensures NamesSpared(before, files)
  {
    hide IsTemporary;
    hide LockFile;
    hide TombstoneFile;
    hide StoreName;
    forall n | n in files ensures IsTemporary(n) || Kept(n) || StoreName(n) || n in before {
      assert Lookup(files, n).Some?;
    }
  }

  lemma {:induction false} WorldNames(before: Files, w: World, files: Files)
    requires NamesFromWorld(w, files) && NamesSpared(before, w.view) && NamesSpared(before, w.synced)
    ensures NamesSpared(before, files)
  {
    hide IsTemporary;
    hide Kept;
    hide StoreName;
  }

  lemma {:induction false} MarkedWorld(before: Files, w: World, w': World, bytes: seq<Byte>)
    requires Sparing(w, before) && w'.view == w'.synced == w.view[TombstoneFile() := bytes]
    ensures Under(w', bytes) && NamesSpared(before, w'.view) && NamesSpared(before, w'.synced)
  {
    SparedNames(before, w.view);
    hide IsTemporary;
    hide LockFile;
    hide TombstoneFile;
    hide StoreName;
    hide Spared;
  }

  lemma {:induction false} UnmarkedWorld(before: Files, w: World, w': World)
    requires Sparing(w, before) && SameBut(w'.view, w.view, {}) && w'.synced == w.synced
    ensures Sparing(w', before)
  {
    hide IsTemporary;
    hide LockFile;
    hide StoreName;
  }

  ghost predicate Buried(env: Env, before: Files, files: Files, t: Tombstone) {
    (Spared(before, files) || Stands(env, files, t)) && NamesSpared(before, files)
  }

  lemma {:induction false} DoubtfulWorld(
      env: Env, before: Files, w: World, w': World, files: Files, t: Tombstone, bytes: seq<Byte>)
    requires env.Faithful() && Sound(Unfinished(t)) && Encode(env.tomb, Unfinished(t)) == Some(bytes)
    requires Sparing(w, before) && Resolves(w', files)
    requires w'.view == w.view[TombstoneFile() := bytes] && w'.synced == w.synced
    ensures Buried(env, before, files, t)
  {
    hide IsTemporary;
    hide LockFile;
    hide TombstoneFile;
    hide StoreName;
    hide Encode;
    hide Sound;
    hide Marked;
    hide Clean;
    hide Env.Lists;
    hide Formats.Faithful;
    hide CompleteIsShorter;
    assert Lookup(files, TombstoneFile()) == Some(bytes)
      || Lookup(files, TombstoneFile()) == Lookup(w.synced, TombstoneFile());
    if Lookup(files, TombstoneFile()) == Some(bytes) {
      ReadsAs(env, files, Unfinished(t), bytes);
      forall n | n in files ensures IsTemporary(n) || Kept(n) || StoreName(n) || n in before {
        assert Lookup(files, n).Some?;
        assert Lookup(w'.view, n).Some? || Lookup(w'.synced, n).Some?;
      }
    } else {
      forall name | !IsTemporary(name) && name != LockFile() && !StoreName(name)
        ensures Lookup(files, name) == Lookup(before, name)
      {
        assert Lookup(files, name) == Lookup(w'.view, name) || Lookup(files, name) == Lookup(w'.synced, name);
      }
      SparedNames(before, files);
    }
  }

  /** Dying after any commits: until the mark is durable nothing beside the store is touched. */
  lemma {:induction false} BuryAfterCommits(env: Env, w: World, before: Files, t: Tombstone, files: Files)
    requires env.Faithful() && Sound(t) && Sparing(w, before)
    requires Resolves(Bury(env, w, t).0, files)
    ensures Buried(env, before, files, t)
  {
    var (w1, o) := Mark(env, w, Unfinished(t));
    assert Sound(Unfinished(t));
    MarkEnds(env, w, Unfinished(t));
    hide Mark;
    hide Encode;
    hide Sound;
    hide IsTemporary;
    hide TombstoneFile;
    hide LockFile;
    hide Env.Faithful;
    hide Sparing;
    hide Spared;
    hide NamesSpared;
    hide Resolves;
    hide SameBut;
    hide Stands;
    hide Clean;
    hide Marked;
    if o == Durable {
      var bytes := Encode(env.tomb, Unfinished(t)).value;
      MarkedWorld(before, w, w1, bytes);
      FinishEnds(env, w1, t, bytes);
      hide Finish;
      hide NamesFromWorld;
      WorldNames(before, w1, files);
    } else {
      hide Finish;
      if o == NotCommitted {
        UnmarkedWorld(before, w, w1);
        SparedResolves(w1, before, files);
        SparedNames(before, files);
      } else {
        DoubtfulWorld(env, before, w, w1, files, t, Encode(env.tomb, Unfinished(t)).value);
      }
    }
  }
}
