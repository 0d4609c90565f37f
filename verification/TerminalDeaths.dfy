/** What a death or a retirement comes to, over histories of failing starts. */
module TerminalDeaths {
  import opened Basics
  import opened LocalFs
  import opened Tombstones
  import opened TombstoneSizes
  import opened Terminal
  import opened TerminalSteps
  import opened TerminalTheorems
  import opened TerminalRuns
  import PS = ProtectedState
  import Statements

  // ---------------------------------------------------------------- once doomed

  /** The next start will act on `t`. */
  ghost predicate Bound(env: Env, files: Files, t: Tombstone) {
    var subject := Subject(env, files, None);
    subject.Some? && Unfinished(subject.value) == Unfinished(t)
  }

  lemma {:induction false} BoundThroughLife(env: Env, before: Files, life: Life, t: Tombstone)
    requires env.Faithful() && Sober(life) && Bound(env, before, t) && Leaves(env, before, life)
    ensures Bound(env, life.files, t)
  {
    NoCommits(env, before, life);
    PlainLife(env, before, life.faults, life.order, life.files);
    hide Live;
    hide Env.Faithful;
    hide LockFile;
    hide Resolves;
    hide Clean;
    hide DeadHead;
    hide Sound;
    hide IsTemporary;
    var s := Subject(env, before, None).value;
    assert Subject(env, before, life.order) == Some(s);
    if Untouched(before, life.files) {
      UntouchedMark(env, before, life.files);
      DeadHeadIgnoresLock(env, life.files, before);
    } else {
      assert Marked(env, life.files).Some?;
      assert TombstoneFile() in life.files;
      hide TombstoneFile;
      hide Marked;
    }
  }

  lemma {:induction false} BoundIsFinal(env: Env, before: Files, lives: seq<Life>, t: Tombstone)
    requires env.Faithful() && Sane(lives) && Bound(env, before, t) && History(env, before, lives)
    ensures Bound(env, Last(before, lives), t)
    decreases |lives|
  {
    hide Env.Faithful;
    hide Bound;
    hide Sober;
    hide Leaves;
    if lives != [] {
      BoundThroughLife(env, before, lives[0], t);
      LastOfRest(before, lives);
      BoundIsFinal(env, lives[0].files, lives[1..], t);
    }
  }

  // ---------------------------------------------------------------- once failures stop

  /** One start without failures finishes the destruction of any Den that is doomed. */
  lemma {:induction false} OneStartFinishes(env: Env, before: Files, t: Tombstone)
    requires env.Faithful() && Bound(env, before, t) && Encode(env.tomb, Unfinished(t)).Some?
    ensures var (w, s) := Start(env, Started(before, []));
      s == Exits(Complete) && Clean(w.view) && Marked(env, w.view) == Some(Finished(t))
  {
    var w := Started(before, []);
    LockTaken(w, before);
    var (w1, locked) := TakeLock(w);
    SameMark(env, w1, before);
    hide TakeLock;
    hide LockFile;
    hide PS.Load;
    hide Encode;
    hide Clean;
    hide Resolves;
    hide SameBut;
    SameView(w1, Drawn(w1), before);
    if TombstoneFile() in before {
      var found := Marked(env, before).value;
      hide TombstoneFile;
      hide Marked;
      hide Fresh;
      hide DeadHead;
      hide Bury;
      ResumeEnds(env, Drawn(w1), before, found);
      hide Env.Faithful;
      hide Resume;
    } else {
      DeadHeadIgnoresLock(env, w1.view, before);
      hide TombstoneFile;
      hide Marked;
      hide Resume;
      DeadHeadSound(env, before);
      hide Sound;
      var d := DeadHead(env, before).tombstone;
      hide DeadHead;
      SameView(w1, Drawn(Drawn(w1)), before);
      hide Fresh;
      BuryEnds(env, Drawn(Drawn(w1)), before, d);
      hide Env.Faithful;
      hide Bury;
    }
  }

  /** The condition is needed: a finished Tombstone next to other entries whose unfinished form does
      not fit is never acted on, and nothing is touched. */
  lemma {:induction false} UnmarkableStaysPut(env: Env, before: Files, faults: seq<Fault>, t: Tombstone)
    requires env.Faithful() && Marked(env, before) == Some(Finished(t)) && !Clean(before)
    requires Encode(env.tomb, Unfinished(t)).None?
    ensures var (w, s) := Start(env, Started(before, faults));
      s != Exits(Complete) && !s.Unmarked? && Fresh(w, before)
  {
    var w := Started(before, faults);
    LockTaken(w, before);
    var (w1, locked) := TakeLock(w);
    SameMark(env, w1, before);
    ReadFrom(env, before);
    UncleanWithLock(w1, before);
    var (w2, clean) := DenIsClean(env, Drawn(w1));
    DenIsCleanCareful(env, Drawn(w1));
    hide Env.Faithful;
    hide TakeLock;
    hide DenIsClean;
    hide TombstoneFile;
    hide LockFile;
    hide Marked;
    hide Clean;
    hide Finish;
    hide Encode;
    hide DeadHead;
    hide Bury;
    if locked {
      if Responds(w1) {
        SameView(w1, w2, before);
      } else {
        SameView(w1, AtStartup(env, w1).0, before);
      }
    }
  }

  lemma {:induction false} UncleanWithLock(w: World, before: Files)
    requires Fresh(w, before) && !Clean(before)
    ensures !Clean(w.view)
  {
    DenNames();
    hide PeltFile;
    hide TombstoneFile;
    hide LockFile;
  }


  // ---------------------------------------------------------------- death is final

  /** A Tombstone is there, or the committed head is dead and calls for one. */
  ghost predicate Doomed(env: Env, files: Files, t: Tombstone) {
    var subject := if TombstoneFile() in files then Marked(env, files) else CommittedDeath(env, files);
    subject.Some? && Unfinished(subject.value) == Unfinished(t)
  }

  lemma {:induction false} DeathLoads(env: Env, files: Files)
    requires CommittedDeath(env, files).Some?
    ensures StateReads(env, files) == ExtrasRead(env, files)
    ensures DeadHead(env, files) ==
      if ExtrasRead(env, files) then Dead(CommittedDeath(env, files).value) else Unavailable
  {
    hide PS.Load;
    hide Deceased;
    hide ExtrasRead;
    hide LegacyReads;
  }

  /** The next start acts on a doomed Den exactly when it has a Tombstone or its extra files read. */
  lemma {:induction false} BoundIff(env: Env, files: Files, t: Tombstone)
    ensures Bound(env, files, t) <==> Doomed(env, files, t) && (TombstoneFile() in files || ExtrasRead(env, files))
  {
    hide TombstoneFile;
    hide Marked;
    hide ExtrasRead;
    if TombstoneFile() !in files {
      if CommittedDeath(env, files).Some? {
        DeathLoads(env, files);
      }
      hide StateReads;
      hide PS.Load;
      hide Shuts;
      hide Deceased;
    }
  }

  lemma {:induction false} DoomUntouched(env: Env, a: Files, b: Files, t: Tombstone)
    requires Doomed(env, a, t) && Untouched(a, b)
    ensures Doomed(env, b, t)
  {
    UntouchedMark(env, a, b);
    DeathIgnoresLock(env, b, a);
    hide TombstoneFile;
    hide Marked;
    hide CommittedDeath;
    hide SameBut;
  }

  lemma {:induction false} DoomStands(env: Env, files: Files, u: Tombstone, t: Tombstone)
    requires Stands(env, files, u) && Unfinished(u) == Unfinished(t)
    ensures Doomed(env, files, t)
  {
    assert Marked(env, files).Some? && TombstoneFile() in files;
    hide Clean;
    hide CommittedDeath;
    hide TombstoneFile;
    hide Marked;
  }

  lemma {:induction false} DoomedSubject(env: Env, before: Files, t: Tombstone, order: Option<Tombstone>)
    requires Doomed(env, before, t)
    ensures var u := Subject(env, before, order); u.Some? ==> Unfinished(u.value) == Unfinished(t)
  {
    if TombstoneFile() !in before {
      DeathLoads(env, before);
    }
    hide CommittedDeath;
    hide DeadHead;
    hide TombstoneFile;
    hide Marked;
    hide ExtrasRead;
  }

  lemma {:induction false} DoomedNeverLives(env: Env, files: Files, t: Tombstone)
    requires Doomed(env, files, t)
    ensures TombstoneFile() in files || !DeadHead(env, files).Alive?
  {
    if TombstoneFile() !in files {
      DeathLoads(env, files);
    }
    hide CommittedDeath;
    hide DeadHead;
    hide TombstoneFile;
    hide Marked;
    hide ExtrasRead;
  }

  lemma {:induction false} DoomThroughLife(env: Env, before: Files, life: Life, t: Tombstone)
    requires env.Faithful() && Sober(life) && Doomed(env, before, t) && Leaves(env, before, life)
    ensures Doomed(env, life.files, t)
  {
    DoomedNeverLives(env, before, t);
    NoCommits(env, before, life);
    hide Env.Faithful;
    hide Sound;
    hide Live;
    hide Resolves;
    hide Doomed;
    hide Subject;
    hide Stands;
    hide NamesKept;
    hide Untouched;
    PlainLife(env, before, life.faults, life.order, life.files);
    if Untouched(before, life.files) {
      DoomUntouched(env, before, life.files, t);
    } else {
      DoomedSubject(env, before, t, life.order);
      DoomStands(env, life.files, Subject(env, before, life.order).value, t);
    }
  }

  /** Death and retirement are final: whatever fails and however often the node restarts. */
  lemma {:induction false} DoomIsFinal(env: Env, before: Files, lives: seq<Life>, t: Tombstone)
    requires env.Faithful() && Sane(lives) && Doomed(env, before, t) && History(env, before, lives)
    ensures Doomed(env, Last(before, lives), t)
    decreases |lives|
  {
    hide Env.Faithful;
    hide Doomed;
    hide Sober;
    hide Leaves;
    if lives != [] {
      DoomThroughLife(env, before, lives[0], t);
      LastOfRest(before, lives);
      DoomIsFinal(env, lives[0].files, lives[1..], t);
    }
  }

  // ---------------------------------------------------------------- when a start completes it

  /** A start that finds the state or the death statement unavailable changes nothing. */
  lemma {:induction false} UnavailableStops(env: Env, w: World)
    requires TombstoneFile() !in TakeLock(w).0.view && DeadHead(env, TakeLock(w).0.view) == Unavailable
    ensures var (w', s) := Start(env, w);
      s == Stopped && w'.view == TakeLock(w).0.view && w'.synced == TakeLock(w).0.synced
  {
    hide DeadHead;
    hide TakeLock;
    hide TombstoneFile;
    hide Marked;
    hide Resume;
    hide Bury;
  }

  /** An extra file that does not read stops every start of a Den whose head is dead, before anything is
      marked or destroyed. */
  lemma {:induction false} UnreadableStopsDeath(env: Env, before: Files, faults: seq<Fault>)
    requires TombstoneFile() !in before && CommittedDeath(env, before).Some? && !ExtrasRead(env, before)
    ensures var (w, s) := Start(env, Started(before, faults)); s == Stopped && Fresh(w, before)
  {
    hide CommittedDeath;
    hide ExtrasRead;
    hide DeadHead;
    hide Start;
    hide TombstoneFile;
    hide LockFile;
    var w := Started(before, faults);
    LockTaken(w, before);
    hide TakeLock;
    hide Fresh;
    DeathLoads(env, before);
    DeadHeadIgnoresLock(env, TakeLock(w).0.view, before);
    UnavailableStops(env, w);
    SameView(TakeLock(w).0, Start(env, w).0, before);
  }

  lemma {:induction false} ExtraNamed(x: Extra)
    ensures 0 < |ExtraName(x)| <= 14 && ExtraName(x)[0] != 'g' && ExtraName(x)[0] != '.'
    ensures ExtraName(x) != TombstoneFile()
    ensures forall slot, doc :: ExtraName(x) != PS.SlotFile(slot, doc)
    ensures ExtraName(x) != PS.ModeFile() && ExtraName(x) != PS.CurrentFile()
    ensures forall n :: ExtraName(x) != ArchiveName(n)
  {
    forall slot, doc ensures ExtraName(x) != PS.SlotFile(slot, doc) {
      PS.SlotFileMarks(slot, doc);
    }
    assert |PS.ModeFile()| > 14 && |PS.CurrentFile()| > 14;
    forall n ensures ExtraName(x) != ArchiveName(n) {
      assert ArchiveName(n)[0] == 'g';
    }
    assert TombstoneFile()[0] == 't';
  }

  lemma {:induction false} DeathIgnoresExtras(env: Env, files: Files, x: Extra, bytes: seq<Byte>)
    ensures CommittedDeath(env, files[ExtraName(x) := bytes]) == CommittedDeath(env, files)
  {
    ExtraNamed(x);
    hide ExtraName;
    hide PS.SlotFile;
    hide PS.ModeFile;
    hide PS.CurrentFile;
    hide ArchiveName;
    var other := files[ExtraName(x) := bytes];
    LoadIgnoresOthers(env.store, files, other);
    hide PS.Load;
    var head := CommittedHead(PS.Load(env.store, files));
    hide CommittedHead;
    if head.Some? {
      var name := ArchiveName(head.value.sequence);
      assert name in other <==> name in files;
      assert name in files ==> other[name] == files[name];
      hide Statements.Decode;
      assert ArchivedDeath(env, other, head.value.sequence, head.value.hash)
        == ArchivedDeath(env, files, head.value.sequence, head.value.hash);
      hide ArchivedDeath;
      hide MakeDeath;
      assert Deceased(env, other, head.value) == Deceased(env, files, head.value);
    }
    hide Deceased;
  }

  /** One byte out of place in one extra file, in any Den whose head is dead: the death is still recorded,
      every start fails, and nothing is touched. */
  lemma {:induction false} OneMalformedFileBlocks(
      env: Env, files: Files, x: Extra, bytes: seq<Byte>, faults: seq<Fault>)
    requires TombstoneFile() !in files && CommittedDeath(env, files).Some?
    requires !x.Cache? && !env.parses(x, bytes)
    ensures var bad := files[ExtraName(x) := bytes];
      && Doomed(env, bad, CommittedDeath(env, files).value)
      && var (w, s) := Start(env, Started(bad, faults)); s == Stopped && Fresh(w, bad)
  {
    var bad := files[ExtraName(x) := bytes];
    ExtraNamed(x);
    DeathIgnoresExtras(env, files, x, bytes);
    hide CommittedDeath;
    hide ExtraName;
    hide PS.SlotFile;
    hide PS.ModeFile;
    hide PS.CurrentFile;
    hide ArchiveName;
    hide TombstoneFile;
    hide Start;
    hide Fresh;
    assert !Reads(bad, ExtraName(x), ExtraLimit(x), (b: seq<Byte>) => x.Cache? || env.parses(x, b));
    assert !ExtrasRead(env, bad);
    hide ExtrasRead;
    UnreadableStopsDeath(env, bad, faults);
  }

  /** A start without failures completes the destruction of this Den. */
  ghost predicate Completable(env: Env, files: Files, t: Tombstone) {
    if TombstoneFile() in files then
      Encode(env.tomb, Unfinished(t)).Some? || (Marked(env, files) == Some(Finished(t)) && Clean(files))
    else ExtrasRead(env, files)
  }

  lemma {:induction false} CleanStartCompletes(env: Env, before: Files, t: Tombstone)
    requires env.Faithful() && Marked(env, before) == Some(Finished(t)) && Clean(before)
    ensures var (w, s) := Start(env, Started(before, []));
      s == Exits(Complete) && Clean(w.view) && Marked(env, w.view) == Some(Finished(t))
  {
    var w := Started(before, []);
    LockTaken(w, before);
    var (w1, locked) := TakeLock(w);
    SameMark(env, w1, before);
    CleanWithLock(w1, before);
    ReadFrom(env, before);
    DenIsCleanCareful(env, Drawn(w1));
    hide Env.Faithful;
    hide TakeLock;
    hide DenIsClean;
    hide TombstoneFile;
    hide LockFile;
    hide Marked;
    hide Clean;
    hide Finish;
    hide Encode;
    hide DeadHead;
    hide Bury;
    hide Fresh;
  }

  lemma {:induction false} TombstoneStartCompletesIff(env: Env, before: Files, t: Tombstone)
    requires env.Faithful() && Doomed(env, before, t) && TombstoneFile() in before
    ensures var (w, s) := Start(env, Started(before, []));
      && (s == Exits(Complete) <==> Completable(env, before, t))
      && (s == Exits(Complete) ==> Clean(w.view) && Marked(env, w.view) == Some(Finished(t)))
      && (s != Exits(Complete) ==> Fresh(w, before))
  {
    var found := Marked(env, before).value;
    ReadFrom(env, before);
    assert found == Unfinished(t) || found == Finished(t);
    BoundIff(env, before, t);
    hide Bound;
    hide Doomed;
    hide Start;
    hide Sound;
    hide Clean;
    hide Marked;
    hide TombstoneFile;
    hide ExtrasRead;
    hide Env.Faithful;
    if Encode(env.tomb, Unfinished(t)).Some? {
      hide Encode;
      OneStartFinishes(env, before, t);
    } else {
      hide Encode;
      if Clean(before) {
        CleanStartCompletes(env, before, t);
      } else {
        UnmarkableStaysPut(env, before, [], t);
      }
    }
  }

  /** Exactly when a start without failures completes the destruction of a doomed Den; when it does not,
      it touches nothing. */
  lemma {:induction false} StartCompletesIff(env: Env, before: Files, t: Tombstone)
    requires env.Faithful() && Doomed(env, before, t)
    ensures var (w, s) := Start(env, Started(before, []));
      && (s == Exits(Complete) <==> Completable(env, before, t))
      && (s == Exits(Complete) ==> Clean(w.view) && Marked(env, w.view) == Some(Finished(t)))
      && (s != Exits(Complete) ==> Fresh(w, before))
  {
    if TombstoneFile() in before {
      TombstoneStartCompletesIff(env, before, t);
    } else {
      BoundIff(env, before, t);
      CommittedDeathSound(env, before);
      hide Bound;
      hide Start;
      hide Sound;
      hide Clean;
      hide Marked;
      hide TombstoneFile;
      hide ExtrasRead;
      hide CommittedDeath;
      hide Env.Faithful;
      hide Encode;
      hide HeadIsDead;
      if ExtrasRead(env, before) {
        OneStartFinishes(env, before, t);
      } else {
        UnreadableStopsDeath(env, before, []);
      }
    }
  }

  /** A Den that no start completes: a finished Tombstone whose unfinished form does not fit, next to one
      other entry. */
  lemma {:induction false} SomeDenIsStuck(env: Env) returns (t: Tombstone, files: Files)
    requires env.Faithful() && Compact(env.tomb)
    ensures Doomed(env, files, t) && !Completable(env, files, t)
  {
    hide Compact;
    hide Crowded;
    hide Doomed;
    hide Completable;
    hide Sound;
    hide Encode;
    hide Env.Lists;
    hide Formats.Faithful;
    hide CompleteIsShorter;
    t := Crowded(Complete);
    SizesMayStraddle(env.tomb);
    files := StuckFiles(env, t, Encode(env.tomb, t).value);
  }

  lemma {:induction false} StuckFiles(env: Env, t: Tombstone, bytes: seq<Byte>) returns (files: Files)
    requires env.tomb.Faithful() && Sound(t) && Encode(env.tomb, t) == Some(bytes)
    requires Encode(env.tomb, Unfinished(t)).None?
    ensures Doomed(env, files, t) && !Completable(env, files, t)
  {
    hide Doomed;
    hide Completable;
    hide Sound;
    hide Encode;
    hide TombstoneFile;
    hide LockFile;
    hide Marked;
    hide Formats.Faithful;
    OtherName();
    files := map[TombstoneFile() := bytes, "x" := []];
    assert Lookup(files, TombstoneFile()) == Some(bytes);
    ReadsAs(env, files, t, bytes);
    assert "x" in files;
    UnfitIsStuck(env, files, t);
  }

  lemma {:induction false} UnfitIsStuck(env: Env, files: Files, t: Tombstone)
    requires TombstoneFile() in files && Marked(env, files) == Some(t) && !Clean(files)
    requires Encode(env.tomb, Unfinished(t)).None?
    ensures Doomed(env, files, t) && !Completable(env, files, t)
  {
    hide TombstoneFile;
    hide Marked;
    hide Clean;
    hide Encode;
    hide CommittedDeath;
    hide ExtrasRead;
  }

  lemma {:induction false} OtherName()
    ensures !Kept("x")
  {
    assert TombstoneFile()[0] != "x"[0] && LockFile()[0] != "x"[0];
  }

  // ---------------------------------------------------------------- when any later start completes it

  lemma {:induction false} FreshUnclean(w: World, before: Files, files: Files)
    requires Fresh(w, before) && !Clean(before) && TombstoneFile() in before && Resolves(w, files)
    ensures !Clean(files)
  {
    DenNames();
    hide PeltFile;
    hide TombstoneFile;
    hide LockFile;
    hide IsTemporary;
    forall n | n != LockFile() ensures Lookup(files, n) == Lookup(before, n) {
      assert Lookup(files, n) == Lookup(w.view, n) || Lookup(files, n) == Lookup(w.synced, n);
    }
    if n :| n in before && !Kept(n) {
      assert Lookup(files, n).Some?;
    } else {
      assert LockFile() in before;
      assert Lookup(files, LockFile()) == Lookup(before, LockFile());
    }
  }

  lemma {:induction false} SameMarkAfter(env: Env, w: World, before: Files, files: Files)
    requires Fresh(w, before) && Resolves(w, files)
    ensures Marked(env, files) == Marked(env, before) && (TombstoneFile() in files <==> TombstoneFile() in before)
    ensures Untouched(before, files)
  {
    SameIsUntouched(w, before, files);
    hide Fresh;
    hide Resolves;
    UntouchedMark(env, before, files);
  }

  /** A Tombstone whose unfinished form does not fit: no life completes it, or undoes its completion. */
  lemma {:induction false} UnfitThroughLife(env: Env, before: Files, life: Life, t: Tombstone)
    requires env.Faithful() && Doomed(env, before, t) && Leaves(env, before, life)
    requires TombstoneFile() in before && Encode(env.tomb, Unfinished(t)).None?
    ensures TombstoneFile() in life.files && (Completable(env, life.files, t) <==> Completable(env, before, t))
  {
    ReadFrom(env, before);
    assert Marked(env, before) == Some(Finished(t));
    hide Doomed;
    hide Encode;
    if Clean(before) {
      LaterStartsChangeNothing(env, before, life, t);
      hide Env.Faithful;
      hide Live;
      hide Clean;
    } else {
      UnmarkableStaysPut(env, before, life.faults, t);
      var w := Start(env, Started(before, life.faults)).0;
      assert Live(env, Started(before, life.faults), life.mutations, life.order) == w;
      hide Start;
      hide Live;
      hide Env.Faithful;
      FreshUnclean(w, before, life.files);
      SameMarkAfter(env, w, before, life.files);
      hide Clean;
      hide TombstoneFile;
      hide Marked;
      hide Fresh;
      hide Resolves;
      hide Untouched;
    }
  }

  /** A committed death: it stays completable, or stays blocked. */
  lemma {:induction false} DeathThroughLife(env: Env, before: Files, life: Life, t: Tombstone)
    requires env.Faithful() && Sober(life) && Doomed(env, before, t) && Leaves(env, before, life)
    requires TombstoneFile() !in before
    ensures Completable(env, life.files, t) <==> Completable(env, before, t)
  {
    CommittedDeathSound(env, before);
    assert Encode(env.tomb, Unfinished(t)).Some?;
    hide Encode;
    hide HeadIsDead;
    if ExtrasRead(env, before) {
      DoomedNeverLives(env, before, t);
      NoCommits(env, before, life);
      hide Live;
      hide Resolves;
      hide Env.Faithful;
      hide Sound;
      hide Subject;
      PlainLife(env, before, life.faults, life.order, life.files);
      hide Doomed;
      hide DeadHead;
      if Untouched(before, life.files) {
        UntouchedMark(env, before, life.files);
        ExtrasIgnoreLock(env, life.files, before);
      } else {
        StandsHasTombstone(env, life.files, Subject(env, before, life.order).value);
      }
    } else {
      UnreadableStopsDeath(env, before, life.faults);
      var w := Start(env, Started(before, life.faults)).0;
      assert Live(env, Started(before, life.faults), life.mutations, life.order) == w;
      hide Start;
      hide Live;
      hide Doomed;
      hide Env.Faithful;
      hide CommittedDeath;
      SameMarkAfter(env, w, before, life.files);
      ExtrasIgnoreLock(env, life.files, before);
    }
    hide ExtrasRead;
    hide Marked;
    hide TombstoneFile;
    hide Clean;
  }

  /** No life makes a doomed Den completable, or stops it from being so. */
  lemma {:induction false} CompletableThroughLife(env: Env, before: Files, life: Life, t: Tombstone)
    requires env.Faithful() && Sober(life) && Doomed(env, before, t) && Leaves(env, before, life)
    ensures Completable(env, life.files, t) <==> Completable(env, before, t)
  {
    if TombstoneFile() !in before {
      DeathThroughLife(env, before, life, t);
    } else if Encode(env.tomb, Unfinished(t)).None? {
      UnfitThroughLife(env, before, life, t);
    } else {
      BoundIff(env, before, t);
      hide Encode;
      hide Env.Faithful;
      hide Live;
      hide Resolves;
      hide Sound;
      NoCommits(env, before, life);
      PlainLife(env, before, life.faults, life.order, life.files);
      hide Doomed;
      hide Bound;
      if Untouched(before, life.files) {
        UntouchedMark(env, before, life.files);
      } else {
        StandsHasTombstone(env, life.files, Subject(env, before, life.order).value);
      }
      hide Marked;
      hide TombstoneFile;
      hide Clean;
      hide ExtrasRead;
    }
  }

  lemma {:induction false} CompletableIsFixed(env: Env, before: Files, lives: seq<Life>, t: Tombstone)
    requires env.Faithful() && Sane(lives) && Doomed(env, before, t) && History(env, before, lives)
    ensures Completable(env, Last(before, lives), t) <==> Completable(env, before, t)
    decreases |lives|
  {
    hide Env.Faithful;
    hide Doomed;
    hide Completable;
    hide Sober;
    hide Leaves;
    if lives != [] {
      CompletableThroughLife(env, before, lives[0], t);
      DoomThroughLife(env, before, lives[0], t);
      LastOfRest(before, lives);
      CompletableIsFixed(env, lives[0].files, lives[1..], t);
    }
  }

  /** After any history of failures and crashes, the first start in which nothing fails completes the
      destruction exactly when a start could have completed it at the outset; otherwise it touches
      nothing. */
  lemma {:induction false} DestructionCompletes(env: Env, before: Files, lives: seq<Life>, t: Tombstone)
    requires env.Faithful() && Sane(lives) && Doomed(env, before, t) && History(env, before, lives)
    ensures var (w, s) := Start(env, Started(Last(before, lives), []));
      && (s == Exits(Complete) <==> Completable(env, before, t))
      && (s == Exits(Complete) ==> Clean(w.view) && Marked(env, w.view) == Some(Finished(t)))
      && (s != Exits(Complete) ==> Fresh(w, Last(before, lives)))
  {
    hide Env.Faithful;
    hide Doomed;
    hide Completable;
    hide Sane;
    hide History;
    hide Start;
    hide Clean;
    hide Marked;
    hide Fresh;
    DoomIsFinal(env, before, lives, t);
    CompletableIsFixed(env, before, lives, t);
    StartCompletesIff(env, Last(before, lives), t);
  }

  lemma {:induction false} DoomedIsSound(env: Env, files: Files, t: Tombstone)
    requires env.Faithful() && Doomed(env, files, t)
    ensures ValidSoftware(t.software)
  {
    hide Encode;
    hide ValidSoftware;
    hide Statements.Encodable;
    if TombstoneFile() in files {
      ReadFrom(env, files);
    } else {
      CommittedDeathSound(env, files);
    }
    hide Marked;
    hide CommittedDeath;
  }

  /** For a retirement or an applied death only the other files count: after any history the first start in
      which nothing fails completes it exactly when a Tombstone was there or those files were readable. */
  lemma {:induction false} SmallDestructionCompletes(env: Env, before: Files, lives: seq<Life>, t: Tombstone)
    requires env.Faithful() && Sane(lives) && Doomed(env, before, t) && History(env, before, lives)
    requires Compact(env.tomb) && Small(t)
    ensures var (w, s) := Start(env, Started(Last(before, lives), []));
      s == Exits(Complete) <==> TombstoneFile() in before || ExtrasRead(env, before)
  {
    hide Env.Faithful;
    hide Sane;
    hide History;
    hide Start;
    hide Clean;
    hide Marked;
    hide Fresh;
    hide Compact;
    hide ExtrasRead;
    hide TombstoneFile;
    hide Encode;
    hide ValidSoftware;
    DoomedIsSound(env, before, t);
    DestructionCompletes(env, before, lives, t);
    hide Doomed;
    SmallTombstonesFit(env.tomb, Unfinished(t));
  }

  // ---------------------------------------------------------------- an unreadable Tombstone

  /** An unreadable Tombstone is an error at every start: over any history it is never taken for absent,
      and nothing is destroyed. */
  lemma {:induction false} MalformedStopsEverything(env: Env, before: Files, lives: seq<Life>)
    requires env.Faithful() && Sane(lives) && History(env, before, lives)
    requires TombstoneFile() in before && Marked(env, before).None?
    ensures Untouched(before, Last(before, lives))
    decreases |lives|
  {
    hide Env.Faithful;
    hide Sound;
    hide Live;
    hide Resolves;
    hide DeadHead;
    hide Stands;
    hide NamesKept;
    if lives == [] {
      SameUntouched(before);
    } else {
      assert Sober(lives[0]);
      NoCommits(env, before, lives[0]);
      PlainLife(env, before, lives[0].faults, lives[0].order, lives[0].files);
      UntouchedMark(env, before, lives[0].files);
      hide Marked;
      hide TombstoneFile;
      hide Untouched;
      LastOfRest(before, lives);
      MalformedStopsEverything(env, lives[0].files, lives[1..]);
      UntouchedFurther(before, lives[0].files, Last(before, lives));
    }
  }
}
