/** Destruction over failures, crashes and restarts. */
module TerminalTheorems {
  import opened Basics
  import opened LocalFs
  import opened Tombstones
  import opened Terminal
  import opened TerminalSteps

  function Unfinished(t: Tombstone): Tombstone {
    t.(destruction := Incomplete)
  }

  function Finished(t: Tombstone): Tombstone {
    t.(destruction := Complete)
  }

  /** The directory carries the Tombstone `t`: unfinished, or finished and clean. */
  ghost predicate Stands(env: Env, files: Files, t: Tombstone) {
    || Marked(env, files) == Some(Unfinished(t))
    || (Marked(env, files) == Some(Finished(t)) && Clean(files))
  }

  /** Nothing changed but temporaries and the lock. */
  ghost predicate Untouched(before: Files, files: Files) {
    SameBut(files, before, {LockFile()})
  }

  ghost predicate NamesFrom(before: Files, files: Files) {
    forall n :: n in files ==> IsTemporary(n) || n in before
  }

  // ---------------------------------------------------------------- finishing

  /** The last write: over a clean, synced Den, so a finished Tombstone is never next to anything else. */
  lemma {:induction false} CompletingEnds(env: Env, w: World, t: Tombstone, bytes: seq<Byte>)
    requires env.Faithful() && Sound(t) && Encode(env.tomb, Unfinished(t)) == Some(bytes)
    requires w.view == w.synced && Clean(w.view) && Under(w, bytes)
    ensures var (w', o) := Mark(env, w, Finished(t));
      && (forall files :: Resolves(w', files) ==> Stands(env, files, t) && NamesFrom(w.view, files))
      && (o == Durable ==> w'.view == w'.synced && Clean(w'.view) && Marked(env, w'.view) == Some(Finished(t)))
      && (Healthy(w) ==> o == Durable)
  {
    var (w', o) := Mark(env, w, Finished(t));
    MarkEnds(env, w, Finished(t));
    CompleteEncodes(env.tomb, t);
    DenNames();
    hide TombstoneFile;
    hide LockFile;
    hide PeltFile;
    hide Encode;
    hide Mark;
    hide Marked;
    hide IsTemporary;
    hide Env.Lists;
    hide CompleteIsShorter;
    hide Formats.Faithful;
    assert Sound(Unfinished(t)) && Sound(Finished(t));
    hide Sound;
    var done := Encode(env.tomb, Finished(t)).value;
    forall files | Resolves(w', files) ensures Stands(env, files, t) && NamesFrom(w.view, files) {
      CompletedResolution(env, w, w', files, done, bytes, o);
      if Lookup(files, TombstoneFile()) == Some(bytes) {
        ReadsAs(env, files, Unfinished(t), bytes);
      } else {
        ReadsAs(env, files, Finished(t), done);
      }
    }
    if o == Durable {
      ReadsAs(env, w'.view, Finished(t), done);
    }
  }

  lemma {:induction false} CompletedResolution(
      env: Env, w: World, w': World, files: Files, done: seq<Byte>, bytes: seq<Byte>, o: Outcome)
    requires w.view == w.synced && Clean(w.view) && Under(w, bytes) && Resolves(w', files)
    requires TombstoneFile() != LockFile() && !IsTemporary(TombstoneFile())
    requires o == Durable ==> w'.view == w'.synced == w.view[TombstoneFile() := done]
    requires o == Indeterminate ==> w'.view == w.view[TombstoneFile() := done] && w'.synced == w.synced
    requires o == NotCommitted ==> SameBut(w'.view, w.view, {}) && w'.synced == w.synced
    requires o == NotCommitted ==> forall n :: n in w'.view ==> IsTemporary(n) || n in w.view
    ensures NamesFrom(w.view, files)
    ensures Lookup(files, TombstoneFile()) == Some(bytes)
      || (Lookup(files, TombstoneFile()) == Some(done) && Clean(files))
  {
    hide TombstoneFile;
    hide LockFile;
    hide IsTemporary;
    assert Lookup(w.view, TombstoneFile()) == Some(bytes);
    forall n | n in files ensures IsTemporary(n) || n in w.view {
      assert Lookup(files, n).Some?;
      assert Lookup(w'.view, n).Some? || Lookup(w'.synced, n).Some?;
    }
    if o == NotCommitted {
      assert Lookup(w'.view, TombstoneFile()) == Lookup(w.view, TombstoneFile());
    } else {
      forall n | n in files ensures Kept(n) {
        assert Lookup(files, n).Some?;
        assert Lookup(w'.view, n).Some? || Lookup(w'.synced, n).Some?;
      }
      assert Lookup(files, LockFile()) == Lookup(w.view, LockFile());
    }
  }

  lemma {:induction false} UnderResolves(env: Env, w: World, files: Files, t: Tombstone, bytes: seq<Byte>)
    requires env.Faithful() && Sound(Unfinished(t)) && Encode(env.tomb, Unfinished(t)) == Some(bytes)
    requires Under(w, bytes) && Resolves(w, files)
    ensures Stands(env, files, t)
  {
    hide TombstoneFile;
    hide Encode;
    hide Marked;
    hide Clean;
    hide Sound;
    hide Formats.Faithful;
    hide CompleteIsShorter;
    hide Env.Lists;
    ReadsAs(env, files, Unfinished(t), bytes);
  }

  lemma {:induction false} ShrunkNames(w: World, w': World, files: Files)
    requires Shrinks(w, w') && Resolves(w', files)
    ensures forall n :: n in files ==> n in w.view || n in w.synced
  {
    forall n | n in files ensures n in w.view || n in w.synced {
      assert Lookup(files, n).Some?;
      assert Lookup(w'.view, n).Some? || Lookup(w'.synced, n).Some?;
    }
  }

  ghost predicate NamesFromWorld(w: World, files: Files) {
    forall n :: n in files ==> IsTemporary(n) || n in w.view || n in w.synced
  }

  /** However destruction ends, every restart finds the Tombstone, finished only over a clean Den; and
      without failures it is finished. */
  lemma {:induction false} FinishEnds(env: Env, w: World, t: Tombstone, bytes: seq<Byte>)
    requires env.Faithful() && Sound(t) && Encode(env.tomb, Unfinished(t)) == Some(bytes) && Under(w, bytes)
    ensures var (w', d) := Finish(env, w, t);
      && (forall files :: Resolves(w', files) ==> Stands(env, files, t) && NamesFromWorld(w, files))
      && (d == Complete ==> w'.view == w'.synced && Clean(w'.view) && Marked(env, w'.view) == Some(Finished(t)))
      && (Healthy(w) ==> d == Complete)
  {
    var (w', d) := Finish(env, w, t);
    var (w1, destroyed) := DestroyDen(env, w);
    DestroyDenCareful(env, w, bytes);
    var (w2, clean) := DenIsClean(env, w1);
    DenIsCleanCareful(env, w1);
    assert Sound(Unfinished(t));
    hide Env.Faithful;
    hide DestroyDen;
    hide DenIsClean;
    hide TombstoneFile;
    hide Encode;
    hide Clean;
    hide Stands;
    hide IsTemporary;
    hide Sound;
    hide Mark;
    hide Marked;
    hide Resolves;
    if destroyed && clean == Some(true) {
      assert Under(w2, bytes);
      CompletingEnds(env, w2, t, bytes);
      hide Under;
      forall files | Resolves(w', files) ensures Stands(env, files, t) && NamesFromWorld(w, files) {
        assert NamesFrom(w2.view, files);
      }
    } else {
      assert w'.view == w1.view && w'.synced == w1.synced;
      assert Under(w', bytes) && Shrinks(w, w');
      hide Under;
      hide Shrinks;
      forall files | Resolves(w', files) ensures Stands(env, files, t) && NamesFromWorld(w, files) {
        UnderResolves(env, w', files, t, bytes);
        ShrunkNames(w, w', files);
      }
    }
  }

  // ---------------------------------------------------------------- one life

  /** A started node that has done nothing yet but take its lock. */
  ghost predicate Fresh(w: World, files: Files) {
    && w.synced == files
    && (w.view == files || (LockFile() !in files && w.view == files[LockFile() := []]))
  }

  ghost predicate NamesKept(before: Files, files: Files) {
    forall n :: n in files ==> IsTemporary(n) || Kept(n) || n in before
  }

  /** What a restart may find after a life that was about the Tombstone `t`. */
  ghost predicate Guarded(env: Env, before: Files, files: Files, t: Tombstone) {
    (Untouched(before, files) || Stands(env, files, t)) && NamesKept(before, files)
  }

  lemma {:induction false} FreshUntouched(w: World, before: Files, w': World, files: Files)
    requires Fresh(w, before) && Resolves(w', files) && w'.synced == w.synced
    requires SameBut(w'.view, w.view, {}) && forall n :: n in w'.view ==> IsTemporary(n) || n in w.view
    ensures Untouched(before, files) && NamesKept(before, files)
  {
    hide TombstoneFile;
    hide LockFile;
    hide IsTemporary;
    forall n | n in files ensures IsTemporary(n) || Kept(n) || n in before {
      assert Lookup(files, n).Some?;
      assert Lookup(w'.view, n).Some? || Lookup(w'.synced, n).Some?;
    }
  }

  lemma {:induction false} FreshMarked(
      env: Env, w: World, before: Files, w': World, files: Files, t: Tombstone, bytes: seq<Byte>)
    requires env.Faithful() && Sound(Unfinished(t)) && Encode(env.tomb, Unfinished(t)) == Some(bytes)
    requires Fresh(w, before) && Resolves(w', files)
    requires w'.view == w.view[TombstoneFile() := bytes] && w'.synced == w.synced
    ensures Guarded(env, before, files, t)
  {
    hide TombstoneFile;
    hide LockFile;
    hide IsTemporary;
    hide Encode;
    hide Marked;
    hide Sound;
    hide Clean;
    hide CompleteIsShorter;
    hide Formats.Faithful;
    hide Env.Lists;
    forall n | n in files ensures IsTemporary(n) || Kept(n) || n in before {
      assert Lookup(files, n).Some?;
      assert Lookup(w'.view, n).Some? || Lookup(w'.synced, n).Some?;
    }
    if Lookup(files, TombstoneFile()) == Some(bytes) {
      ReadsAs(env, files, Unfinished(t), bytes);
    } else {
      assert Lookup(files, TombstoneFile()) == Lookup(before, TombstoneFile());
    }
  }

  lemma {:induction false} FinishedNames(before: Files, w: World, files: Files)
    requires NamesFromWorld(w, files)
    requires forall n :: n in w.view || n in w.synced ==> Kept(n) || n in before
    ensures NamesKept(before, files)
  {
    hide Kept;
    hide IsTemporary;
  }

  lemma {:induction false} MarkedNames(before: Files, w: World, w': World, bytes: seq<Byte>)
    requires Fresh(w, before) && w'.view == w'.synced == w.view[TombstoneFile() := bytes]
    ensures Under(w', bytes)
    ensures forall n :: n in w'.view || n in w'.synced ==> Kept(n) || n in before
  {
    hide TombstoneFile;
    hide LockFile;
  }

  ghost predicate Ended(env: Env, w: World, d: Destruction, t: Tombstone) {
    d == Complete ==> w.view == w.synced && Clean(w.view) && Marked(env, w.view) == Some(Finished(t))
  }

  /** Marking and then destroying: until the mark is durable nothing is touched. */
  lemma {:induction false} BuryEnds(env: Env, w: World, before: Files, t: Tombstone)
    requires env.Faithful() && Sound(t) && Fresh(w, before)
    ensures var (w', d) := Bury(env, w, t);
      && (forall files :: Resolves(w', files) ==> Guarded(env, before, files, t))
      && Ended(env, w', d, t)
      && (Healthy(w) && Encode(env.tomb, Unfinished(t)).Some? ==> d == Complete)
  {
    var (w1, o) := Mark(env, w, Unfinished(t));
    var (w', d) := Bury(env, w, t);
    assert Sound(Unfinished(t));
    MarkEnds(env, w, Unfinished(t));
    hide Mark;
    hide Encode;
    hide Marked;
    hide Sound;
    hide Clean;
    hide IsTemporary;
    hide TombstoneFile;
    hide LockFile;
    hide Env.Faithful;
    hide Fresh;
    hide Resolves;
    hide SameBut;
    hide Stands;
    if o == Durable {
      var bytes := Encode(env.tomb, Unfinished(t)).value;
      MarkedNames(before, w, w1, bytes);
      FinishEnds(env, w1, t, bytes);
      hide Finish;
      forall files | Resolves(w', files) ensures Guarded(env, before, files, t) {
        FinishedNames(before, w1, files);
      }
    } else {
      hide Finish;
      forall files | Resolves(w', files) ensures Guarded(env, before, files, t) {
        if o == NotCommitted {
          FreshUntouched(w, before, w', files);
        } else {
          FreshMarked(env, w, before, w', files, t, Encode(env.tomb, Unfinished(t)).value);
        }
      }
    }
  }

  lemma {:induction false} FreshUnder(w: World, before: Files, bytes: seq<Byte>)
    requires Fresh(w, before) && Lookup(before, TombstoneFile()) == Some(bytes) && TombstoneFile() != LockFile()
    ensures Under(w, bytes)
    ensures forall n :: n in w.view || n in w.synced ==> Kept(n) || n in before
  {
    hide TombstoneFile;
    hide LockFile;
  }

  lemma {:induction false} SameIsUntouched(w: World, before: Files, files: Files)
    requires Fresh(w, before) && Resolves(w, files)
    ensures Untouched(before, files) && NamesKept(before, files)
  {
    hide IsTemporary;
    FreshUntouched(w, before, w, files);
  }

  lemma {:induction false} SameView(w: World, w': World, before: Files)
    requires Fresh(w, before) && w'.view == w.view && w'.synced == w.synced
    ensures Fresh(w', before)
  {
  }

  /** Resuming from an unfinished Tombstone. */
  lemma {:induction false} ResumeUnfinished(env: Env, w: World, before: Files, found: Tombstone)
    requires env.Faithful() && Fresh(w, before) && Marked(env, before) == Some(found) && found.destruction == Incomplete
    ensures var (w', d) := Finish(env, w, found);
      && (forall files :: Resolves(w', files) ==> Guarded(env, before, files, found))
      && Ended(env, w', d, found)
      && (Healthy(w) ==> d == Complete)
  {
    ReadFrom(env, before);
    DenNames();
    hide TombstoneFile;
    hide LockFile;
    hide PeltFile;
    hide Encode;
    hide Sound;
    hide Marked;
    hide Finish;
    hide Clean;
    hide IsTemporary;
    hide Env.Faithful;
    hide Stands;
    hide Resolves;
    var bytes := before[TombstoneFile()];
    assert Unfinished(found) == found;
    FreshUnder(w, before, bytes);
    FinishEnds(env, w, found, bytes);
    var w' := Finish(env, w, found).0;
    forall files | Resolves(w', files) ensures Guarded(env, before, files, found) {
      FinishedNames(before, w, files);
    }
  }

  /** What resuming finds and leaves. */
  lemma {:induction false} ResumeEnds(env: Env, w: World, before: Files, found: Tombstone)
    requires env.Faithful() && Fresh(w, before) && Marked(env, before) == Some(found)
    ensures var (w', s) := Resume(env, w, found);
      && (forall files :: Resolves(w', files) ==> Guarded(env, before, files, found))
      && (s.Exits? ==> s.destruction == Complete ==>
            Clean(w'.view) && Marked(env, w'.view) == Some(Finished(found)))
      && (Healthy(w) && Encode(env.tomb, Unfinished(found)).Some? ==> s == Exits(Complete))
      && (Clean(w.view) && found.destruction == Complete ==> w'.view == w.view && w'.synced == w.synced)
  {
    var (w', s) := Resume(env, w, found);
    ReadFrom(env, before);
    if found.destruction == Incomplete {
      ResumeUnfinished(env, w, before, found);
      hide Finish;
    } else {
      var (w1, clean) := DenIsClean(env, w);
      DenIsCleanCareful(env, w);
      SameView(w, w1, before);
      SameMark(env, w, before);
      assert Sound(found);
      hide DenIsClean;
      hide Sound;
      hide Encode;
      hide Marked;
      hide Env.Faithful;
      hide Fresh;
      hide Clean;
      hide IsTemporary;
      hide Resolves;
      hide TombstoneFile;
      hide Finish;
      if clean.None? || clean.value {
        assert w'.view == w.view && w'.synced == w.synced;
        SameView(w, w', before);
        forall files | Resolves(w', files) ensures Guarded(env, before, files, found) {
          SameIsUntouched(w', before, files);
        }
      } else {
        BuryEnds(env, w1, before, found);
        assert (w', s) == (Bury(env, w1, found).0, Exits(Bury(env, w1, found).1));
      }
    }
  }

  lemma {:induction false} SameMark(env: Env, w: World, before: Files)
    requires Fresh(w, before)
    ensures Marked(env, w.view) == Marked(env, before)
  {
    DenNames();
    hide TombstoneFile;
    hide LockFile;
    hide PeltFile;
    hide Parse;
  }
}
