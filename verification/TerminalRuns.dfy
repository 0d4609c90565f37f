/** Whole histories of a Den: any number of lives, each with its own failures and its own crash. */
module TerminalRuns {
  import opened Basics
  import opened LocalFs
  import opened Tombstones
  import opened Terminal
  import opened TerminalSteps
  import opened TerminalTheorems
  import opened TerminalMutations
  import PS = ProtectedState
  import PT = ProtectedTheorems
  import Governance
  import Statements

  // ---------------------------------------------------------------- what the state check looks at

  lemma {:induction false} LoadIgnoresOthers(f: PS.Store, a: Files, b: Files)
    requires Lookup(a, PS.ModeFile()) == Lookup(b, PS.ModeFile())
    requires Lookup(a, PS.CurrentFile()) == Lookup(b, PS.CurrentFile())
    requires forall slot, doc :: Lookup(a, PS.SlotFile(slot, doc)) == Lookup(b, PS.SlotFile(slot, doc))
    ensures PS.Load(f, a) == PS.Load(f, b)
  {
    hide PS.SlotFile;
    hide PS.ModeFile;
    hide PS.CurrentFile;
    hide PS.LoadSlot;
    hide PS.ReadExact;
    assert PS.NoSlotFiles(a) == PS.NoSlotFiles(b) by {
      forall slot, doc ensures PS.SlotFile(slot, doc) in a <==> PS.SlotFile(slot, doc) in b {
        assert Lookup(a, PS.SlotFile(slot, doc)) == Lookup(b, PS.SlotFile(slot, doc));
      }
    }
    assert PS.LoadCurrent(f, a) == PS.LoadCurrent(f, b);
    hide PS.LoadCurrent;
    if PS.LoadCurrent(f, a).Selects? {
      PT.SlotIndependent(f, a, b, PS.LoadCurrent(f, a).generation);
    }
  }

  lemma {:induction false} ArchiveNamed(sequence: nat)
    ensures ArchiveName(sequence) != LockFile() && !IsTemporary(ArchiveName(sequence))
  {
    assert ArchiveName(sequence)[0] == 'g';
    assert LockFile()[0] == '.';
    assert ArchiveName(sequence)[..7][0] == 'g';
  }

  lemma {:induction false} StoreNamed(slot: PS.Slot, doc: PS.Doc)
    ensures PS.SlotFile(slot, doc) != LockFile() && PS.ModeFile() != LockFile() && PS.CurrentFile() != LockFile()
  {
    PS.SlotFileMarks(slot, doc);
    assert LockFile()[0] == '.' && PS.ModeFile()[0] == 's' && PS.CurrentFile()[0] == 's';
  }

  lemma {:induction false} LoadIgnoresLock(f: PS.Store, a: Files, b: Files)
    requires SameBut(a, b, {LockFile()})
    ensures PS.Load(f, a) == PS.Load(f, b)
  {
    PS.NamesDiffer();
    hide PS.Load;
    hide IsTemporary;
    forall slot, doc ensures Lookup(a, PS.SlotFile(slot, doc)) == Lookup(b, PS.SlotFile(slot, doc)) {
      StoreNamed(slot, doc);
    }
    StoreNamed(PS.A, PS.Pack);
    hide PS.SlotFile;
    hide PS.ModeFile;
    hide PS.CurrentFile;
    hide LockFile;
    LoadIgnoresOthers(f, a, b);
  }

  lemma {:induction false} ArchiveIgnoresLock(env: Env, a: Files, b: Files, sequence: nat, hash: Statements.Hash)
    requires SameBut(a, b, {LockFile()})
    ensures ArchivedDeath(env, a, sequence, hash) == ArchivedDeath(env, b, sequence, hash)
  {
    ArchiveNamed(sequence);
    hide IsTemporary;
    hide LockFile;
    hide ArchiveName;
    hide Statements.Decode;
    assert Lookup(a, ArchiveName(sequence)) == Lookup(b, ArchiveName(sequence));
  }

  lemma {:induction false} DeceasedIgnoresLock(env: Env, a: Files, b: Files, head: Governance.Head)
    requires SameBut(a, b, {LockFile()})
    ensures Deceased(env, a, head) == Deceased(env, b, head)
  {
    ArchiveIgnoresLock(env, a, b, head.sequence, head.hash);
    hide ArchivedDeath;
    hide MakeDeath;
    hide SameBut;
    hide LockFile;
  }

  lemma {:induction false} PlainNames(name: string)
    requires name != "" && name[0] != '.'
    ensures name != LockFile() && !IsTemporary(name)
  {
    assert LockFile()[0] == '.';
    if |name| >= 7 {
      assert name[..7][0] == name[0] && ".state-"[0] == '.';
    }
  }

  lemma {:induction false} ReadsIgnoresLock(a: Files, b: Files, name: string, limit: nat, accepts: seq<Byte> -> bool)
    requires SameBut(a, b, {LockFile()}) && name != "" && name[0] != '.'
    ensures Reads(a, name, limit, accepts) == Reads(b, name, limit, accepts)
    ensures Lookup(a, name) == Lookup(b, name)
  {
    PlainNames(name);
    hide LockFile;
    hide IsTemporary;
    assert Lookup(a, name) == Lookup(b, name);
  }

  lemma {:induction false} ExtrasIgnoreLock(env: Env, a: Files, b: Files)
    requires SameBut(a, b, {LockFile()})
    ensures ExtrasRead(env, a) == ExtrasRead(env, b)
  {
    hide SameBut;
    hide LockFile;
    hide Reads;
    forall x: Extra
      ensures Reads(a, ExtraName(x), ExtraLimit(x), (b: seq<Byte>) => x.Cache? || env.parses(x, b))
        == Reads(b, ExtraName(x), ExtraLimit(x), (b: seq<Byte>) => x.Cache? || env.parses(x, b))
    {
      ReadsIgnoresLock(a, b, ExtraName(x), ExtraLimit(x), (b: seq<Byte>) => x.Cache? || env.parses(x, b));
    }
  }

  lemma {:induction false} LegacyIgnoresLock(env: Env, a: Files, b: Files)
    requires SameBut(a, b, {LockFile()})
    ensures LegacyReads(env, a) == LegacyReads(env, b)
  {
    SameFile(a, b, "silver.json");
    SameFile(a, b, "target_policy.json");
    SameFile(a, b, "pack.json");
    SameFile(a, b, "fangs.json");
    SameFile(a, b, "active_fangs.json");
    hide SameBut;
    hide LockFile;
    hide SilverReads;
    assert LegacyProfileList(env, a) == LegacyProfileList(env, b);
  }

  lemma {:induction false} SameFile(a: Files, b: Files, name: string)
    requires SameBut(a, b, {LockFile()}) && name != "" && name[0] != '.'
    ensures name in a <==> name in b
    ensures name in a ==> a[name] == b[name]
  {
    PlainNames(name);
    hide LockFile;
    hide IsTemporary;
    assert Lookup(a, name) == Lookup(b, name);
  }

  lemma {:induction false} DeathIgnoresLock(env: Env, a: Files, b: Files)
    requires SameBut(a, b, {LockFile()})
    ensures CommittedDeath(env, a) == CommittedDeath(env, b)
    ensures HeadIsDead(env, a) == HeadIsDead(env, b)
  {
    LoadIgnoresLock(env.store, a, b);
    hide SameBut;
    hide PS.Load;
    hide LockFile;
    hide CommittedHead;
    var head := CommittedHead(PS.Load(env.store, a));
    if head.Some? {
      DeceasedIgnoresLock(env, a, b, head.value);
    }
    hide Deceased;
  }

  lemma {:induction false} StateIgnoresLock(env: Env, a: Files, b: Files)
    requires SameBut(a, b, {LockFile()})
    ensures StateReads(env, a) == StateReads(env, b)
  {
    LoadIgnoresLock(env.store, a, b);
    ExtrasIgnoreLock(env, a, b);
    LegacyIgnoresLock(env, a, b);
    hide PS.Load;
    hide ExtrasRead;
    hide LegacyReads;
    hide SameBut;
  }

  /** The lock and stray temporaries do not change what a start finds. */
  lemma {:induction false} DeadHeadIgnoresLock(env: Env, a: Files, b: Files)
    requires SameBut(a, b, {LockFile()})
    ensures DeadHead(env, a) == DeadHead(env, b)
  {
    LoadIgnoresLock(env.store, a, b);
    DeathIgnoresLock(env, a, b);
    StateIgnoresLock(env, a, b);
    hide SameBut;
    hide PS.Load;
    hide StateReads;
    hide CommittedDeath;
    hide HeadIsDead;
    hide Shuts;
  }

  lemma {:induction false} CommittedDeathSound(env: Env, files: Files)
    requires CommittedDeath(env, files).Some?
    ensures var t := CommittedDeath(env, files).value;
      Sound(t) && Unfinished(t) == t && Encode(env.tomb, t).Some? && HeadIsDead(env, files)
  {
    hide PS.Load;
    hide Statements.Decode;
    hide Statements.EncodeStatement;
    hide Statements.Encodable;
    hide ArchiveName;
    hide Encode;
    var h := CommittedHead(PS.Load(env.store, files)).value;
    hide CommittedHead;
    Statements.DecodeExact(files[ArchiveName(h.sequence)]);
  }

  lemma {:induction false} DeadHeadSound(env: Env, files: Files)
    requires DeadHead(env, files).Dead?
    ensures CommittedDeath(env, files) == Some(DeadHead(env, files).tombstone)
    ensures Sound(DeadHead(env, files).tombstone)
    ensures Unfinished(DeadHead(env, files).tombstone) == DeadHead(env, files).tombstone
    ensures Encode(env.tomb, DeadHead(env, files).tombstone).Some?
  {
    hide StateReads;
    hide Shuts;
    hide PS.Load;
    hide Sound;
    hide Encode;
    CommittedDeathSound(env, files);
    hide CommittedDeath;
  }

  // ---------------------------------------------------------------- one life

  /** The Tombstone a life is about, if any. */
  function Subject(env: Env, files: Files, order: Option<Tombstone>): Option<Tombstone> {
    if TombstoneFile() in files then Marked(env, files)
    else match DeadHead(env, files)
      case Dead(t) => Some(t)
      case Unavailable => None
      case Alive => order
  }

  ghost predicate LifeGuarded(env: Env, before: Files, files: Files, subject: Option<Tombstone>) {
    && NamesKept(before, files)
    && (Untouched(before, files) || (subject.Some? && Stands(env, files, subject.value)))
  }

  lemma {:induction false} LockTaken(w: World, before: Files)
    requires w.view == before && w.synced == before
    ensures Fresh(TakeLock(w).0, before)
    ensures TombstoneFile() in TakeLock(w).0.view <==> TombstoneFile() in before
    ensures Healthy(w) ==> TakeLock(w).1 && Healthy(TakeLock(w).0)
    ensures SameBut(TakeLock(w).0.view, before, {LockFile()})
  {
    DenNames();
    hide TombstoneFile;
    hide LockFile;
    hide PeltFile;
    hide IsTemporary;
  }

  lemma {:induction false} QuietLife(env: Env, w: World, before: Files, subject: Option<Tombstone>)
    requires Fresh(w, before)
    ensures forall files :: Resolves(w, files) ==> LifeGuarded(env, before, files, subject)
  {
    hide Fresh;
    hide Untouched;
    hide NamesKept;
    hide Stands;
    hide Resolves;
    forall files | Resolves(w, files) ensures LifeGuarded(env, before, files, subject) {
      SameIsUntouched(w, before, files);
    }
  }

  /** How the Tombstone check at a start ends. */
  lemma {:induction false} AtStartupEnds(env: Env, w: World, before: Files)
    requires env.Faithful() && Fresh(w, before)
    requires TombstoneFile() in w.view <==> TombstoneFile() in before
    ensures var (w', s) := AtStartup(env, w);
      && (s.Unmarked? ==> TombstoneFile() !in before && Fresh(w', before))
      && (s.Unmarked? && Healthy(w) ==> Healthy(w'))
      && (TombstoneFile() !in before ==> (s.Unmarked? || s.Stopped?) && Fresh(w', before))
      && (TombstoneFile() !in before && Healthy(w) ==> s.Unmarked?)
      && (forall files :: Resolves(w', files) ==> LifeGuarded(env, before, files, Marked(env, before)))
  {
    SameMark(env, w, before);
    var (w', s) := AtStartup(env, w);
    hide TombstoneFile;
    hide Resume;
    hide Untouched;
    hide NamesKept;
    hide Stands;
    hide Env.Faithful;
    if Responds(w) && TombstoneFile() in w.view && Marked(env, before).Some? {
      SameView(w, Drawn(w), before);
      var found := Marked(env, before).value;
      hide Marked;
      hide Fresh;
      ResumeEnds(env, Drawn(w), before, found);
      hide Resolves;
      hide Clean;
      hide Encode;
    } else {
      hide Marked;
      SameView(w, w', before);
      hide Fresh;
      hide Resolves;
      QuietLife(env, w', before, Marked(env, before));
    }
  }

  lemma {:induction false} StartEnds(env: Env, w: World, before: Files)
    requires env.Faithful() && w.view == before && w.synced == before
    ensures var (w', s) := Start(env, w);
      && (s.Unmarked? ==> Fresh(w', before) && TombstoneFile() !in before && DeadHead(env, before).Alive?)
      && (forall files :: Resolves(w', files) ==> LifeGuarded(env, before, files, Subject(env, before, None)))
  {
    var (w1, locked) := TakeLock(w);
    LockTaken(w, before);
    AtStartupEnds(env, w1, before);
    var (w2, s2) := AtStartup(env, w1);
    var (w', s) := Start(env, w);
    hide TakeLock;
    hide AtStartup;
    hide TombstoneFile;
    hide LockFile;
    hide Marked;
    hide DeadHead;
    hide Resolves;
    hide Env.Faithful;
    hide Untouched;
    hide NamesKept;
    hide Stands;
    if !locked {
      SameView(w1, w', before);
      hide Fresh;
      QuietLife(env, w', before, Subject(env, before, None));
    } else if s2.Unmarked? {
      FreshBut(w2, before);
      DeadHeadIgnoresLock(env, w2.view, before);
      SameView(w2, Drawn(w2), before);
      if Responds(w2) && DeadHead(env, before).Dead? {
        hide Fresh;
        DeadHeadSound(env, before);
        hide Sound;
        hide Encode;
        BuryEnds(env, Drawn(w2), before, DeadHead(env, before).tombstone);
        hide Bury;
        GuardedIsLifeGuarded(env, before, w', DeadHead(env, before).tombstone);
      } else {
        hide Bury;
        SameView(w2, w', before);
        hide Fresh;
        QuietLife(env, w', before, Subject(env, before, None));
      }
    } else if TombstoneFile() in before {
      assert Subject(env, before, None) == Marked(env, before);
    } else {
      hide Fresh;
      QuietLife(env, w2, before, Subject(env, before, None));
    }
  }

  lemma {:induction false} FreshBut(w: World, before: Files)
    requires Fresh(w, before)
    ensures SameBut(w.view, before, {LockFile()})
  {
    hide LockFile;
    hide IsTemporary;
  }

  lemma {:induction false} GuardedIsLifeGuarded(env: Env, before: Files, w: World, t: Tombstone)
    requires forall files :: Resolves(w, files) ==> Guarded(env, before, files, t)
    ensures forall files :: Resolves(w, files) ==> LifeGuarded(env, before, files, Some(t))
  {
    hide Resolves;
    hide Stands;
    hide Untouched;
    hide NamesKept;
  }

  /** A life without commits: either nothing but the lock and temporaries changed, or the directory carries
      the Tombstone the life was about, finished only if clean. */
  lemma {:induction false} PlainLife(
      env: Env, before: Files, faults: seq<Fault>, order: Option<Tombstone>, files: Files)
    requires env.Faithful() && (order.Some? ==> Sound(order.value))
    requires Resolves(Live(env, Started(before, faults), [], order), files)
    ensures LifeGuarded(env, before, files, Subject(env, before, order))
  {
    var w := Started(before, faults);
    StartEnds(env, w, before);
    var (w', s) := Start(env, w);
    hide Start;
    hide DeadHead;
    hide Marked;
    hide TombstoneFile;
    hide Env.Faithful;
    hide Resolves;
    hide Sound;
    hide Stands;
    hide Untouched;
    hide NamesKept;
    if s.Unmarked? && order.Some? {
      BuryEnds(env, w', before, order.value);
      hide Bury;
      hide Encode;
      assert Guarded(env, before, files, order.value);
    } else {
      hide Bury;
    }
  }

  // ---------------------------------------------------------------- many lives

  /** One life: what fails in it, what it commits and is ordered to do, and the directory the next start
      finds. */
  datatype Life = Life(faults: seq<Fault>, mutations: seq<Mutation>, order: Option<Tombstone>, files: Files)

  ghost predicate Sane(lives: seq<Life>) {
    forall i :: 0 <= i < |lives| ==> Sober(lives[i])
  }

  /** A node is never ordered to leave a Tombstone it could not hold. */
  ghost predicate Sober(life: Life) {
    life.order.Some? ==> Sound(life.order.value)
  }

  /** The life ends with this directory on disk. */
  ghost predicate Leaves(env: Env, before: Files, life: Life) {
    Resolves(Live(env, Started(before, life.faults), life.mutations, life.order), life.files)
  }

  /** Each life starts from what the one before left on disk. */
  ghost predicate History(env: Env, before: Files, lives: seq<Life>)
    decreases |lives|
  {
    lives == [] || (Leaves(env, before, lives[0]) && History(env, lives[0].files, lives[1..]))
  }

  ghost function Last(before: Files, lives: seq<Life>): Files {
    if lives == [] then before else lives[|lives| - 1].files
  }

  lemma {:induction false} LastOfRest(before: Files, lives: seq<Life>)
    requires lives != []
    ensures Last(before, lives) == Last(lives[0].files, lives[1..])
  {
  }

  /** A life that starts with a Tombstone, or does not find a living head, commits nothing. */
  lemma {:induction false} NoCommits(env: Env, before: Files, life: Life)
    requires env.Faithful() && Leaves(env, before, life)
    requires TombstoneFile() in before || !DeadHead(env, before).Alive?
    ensures Resolves(Live(env, Started(before, life.faults), [], life.order), life.files)
    ensures Live(env, Started(before, life.faults), life.mutations, life.order) ==
      Live(env, Started(before, life.faults), [], life.order)
  {
    StartEnds(env, Started(before, life.faults), before);
    hide Env.Faithful;
    hide Start;
    hide Mutated;
    hide Bury;
    hide DeadHead;
    hide TombstoneFile;
    hide Resolves;
    hide LifeGuarded;
  }

  /** How a life may end: as `LifeGuarded` says if it commits nothing, and in any case with every file beside
      the store as it was, or under the Tombstone the life was about. */
  ghost predicate LifeSpares(env: Env, before: Files, life: Life) {
    var subject := Subject(env, before, life.order);
    && NamesSpared(before, life.files)
    && (Spared(before, life.files) || (subject.Some? && Stands(env, life.files, subject.value)))
    && (life.mutations == [] ==> LifeGuarded(env, before, life.files, subject))
  }

  lemma {:induction false} GuardedSpares(env: Env, before: Files, files: Files, subject: Option<Tombstone>)
    requires LifeGuarded(env, before, files, subject)
    ensures NamesSpared(before, files)
    ensures Spared(before, files) || (subject.Some? && Stands(env, files, subject.value))
  {
    hide Stands;
    hide Kept;
    hide IsTemporary;
    hide StoreName;
    if Untouched(before, files) {
      UntouchedIsSpared(before, files);
    }
    hide Untouched;
    hide Spared;
  }

  lemma {:induction false} CommittingLife(env: Env, before: Files, life: Life)
    requires env.Faithful() && Sober(life) && Leaves(env, before, life)
    requires Start(env, Started(before, life.faults)).1.Unmarked?
    ensures NamesSpared(before, life.files)
    ensures var subject := Subject(env, before, life.order);
      Spared(before, life.files) || (subject.Some? && Stands(env, life.files, subject.value))
  {
    var w := Started(before, life.faults);
    StartEnds(env, w, before);
    var w' := Start(env, w).0;
    hide Start;
    hide DeadHead;
    hide Marked;
    hide TombstoneFile;
    hide Env.Faithful;
    hide Resolves;
    hide Sound;
    hide Stands;
    hide NamesSpared;
    hide Spared;
    hide LifeGuarded;
    FreshSpares(w', before);
    hide Fresh;
    hide Sparing;
    CommitsSpare(env.store, w', before, life.mutations);
    var w'' := Mutated(env.store, w', life.mutations);
    hide Mutated;
    if life.order.Some? {
      BuryAfterCommits(env, w'', before, life.order.value, life.files);
      hide Bury;
    } else {
      SparedResolves(w'', before, life.files);
      SparedNames(before, life.files);
    }
  }

  /** One life, with any commits, any failures and a crash anywhere: every file beside the store is as it
      was, or the directory carries the Tombstone the life was about, finished only if clean. */
  lemma {:induction false} LifeIsGuarded(env: Env, before: Files, life: Life)
    requires env.Faithful() && Sober(life) && Leaves(env, before, life)
    ensures LifeSpares(env, before, life)
  {
    var started := Start(env, Started(before, life.faults)).1;
    if !started.Unmarked? || life.mutations == [] {
      assert Resolves(Live(env, Started(before, life.faults), [], life.order), life.files) by {
        hide Start;
        hide Bury;
        hide Resolves;
      }
      hide Live;
      hide Env.Faithful;
      hide Resolves;
      hide Start;
      hide Sound;
      hide Subject;
      PlainLife(env, before, life.faults, life.order, life.files);
      GuardedSpares(env, before, life.files, Subject(env, before, life.order));
    } else {
      hide Env.Faithful;
      hide Live;
      hide Start;
      hide Sound;
      hide Subject;
      CommittingLife(env, before, life);
    }
    hide LifeGuarded;
    hide NamesSpared;
    hide Spared;
    hide Stands;
  }

  /** A finished Den stays exactly as it is, but for an empty lock, whatever fails. */
  lemma {:induction false} LaterStartsChangeNothing(env: Env, before: Files, life: Life, t: Tombstone)
    requires env.Faithful() && Clean(before) && Marked(env, before) == Some(Finished(t)) && Leaves(env, before, life)
    ensures Fresh(Live(env, Started(before, life.faults), life.mutations, life.order), before)
    ensures Clean(life.files) && Marked(env, life.files) == Some(Finished(t))
  {
    NoCommits(env, before, life);
    PlainLater(env, before, life.faults, life.order, t);
    DenNames();
    hide Live;
    hide Env.Faithful;
    hide TombstoneFile;
    hide LockFile;
    hide PeltFile;
    hide Marked;
    FreshClean(Live(env, Started(before, life.faults), [], life.order), before, life.files);
    MarkedByFile(env, before, life.files);
  }

  lemma {:induction false} PlainLater(
      env: Env, before: Files, faults: seq<Fault>, order: Option<Tombstone>, t: Tombstone)
    requires env.Faithful() && Clean(before) && Marked(env, before) == Some(Finished(t))
    ensures Fresh(Live(env, Started(before, faults), [], order), before)
  {
    var w := Started(before, faults);
    LockTaken(w, before);
    var (w1, locked) := TakeLock(w);
    SameMark(env, w1, before);
    CleanWithLock(w1, before);
    ReadFrom(env, before);
    hide TakeLock;
    hide Fresh;
    hide TombstoneFile;
    hide LockFile;
    hide Clean;
    hide Marked;
    hide Encode;
    hide Resume;
    hide Bury;
    hide DeadHead;
    hide Resolves;
    hide Mutated;
    if locked && Responds(w1) {
      SameView(w1, Drawn(w1), before);
      ResumeEnds(env, Drawn(w1), before, Finished(t));
      hide Env.Faithful;
      SameView(w1, AtStartup(env, w1).0, before);
      ResumeStops(env, Drawn(w1), Finished(t));
    } else if locked {
      SameView(w1, AtStartup(env, w1).0, before);
    }
  }

  lemma {:induction false} ResumeStops(env: Env, w: World, found: Tombstone)
    ensures !Resume(env, w, found).1.Unmarked?
  {
    hide DenIsClean;
    hide Finish;
    hide Mark;
  }

  lemma {:induction false} CleanWithLock(w: World, before: Files)
    requires Fresh(w, before) && Clean(before)
    ensures Clean(w.view)
  {
    hide TombstoneFile;
    hide LockFile;
  }

  lemma {:induction false} FreshClean(w: World, before: Files, files: Files)
    requires Fresh(w, before) && Clean(before) && Resolves(w, files) && TombstoneFile() != LockFile()
    ensures Clean(files) && Lookup(files, TombstoneFile()) == Lookup(before, TombstoneFile())
  {
    hide TombstoneFile;
    hide LockFile;
    forall n | n in files ensures Kept(n) {
      assert Lookup(files, n).Some?;
      assert Lookup(w.view, n).Some? || Lookup(w.synced, n).Some?;
    }
    assert Lookup(files, LockFile()) == Lookup(w.view, LockFile())
      || Lookup(files, LockFile()) == Lookup(w.synced, LockFile());
    assert Lookup(w.view, TombstoneFile()) == Lookup(before, TombstoneFile());
  }

  lemma {:induction false} MarkedByFile(env: Env, a: Files, b: Files)
    requires Lookup(a, TombstoneFile()) == Lookup(b, TombstoneFile())
    ensures Marked(env, a) == Marked(env, b)
    ensures TombstoneFile() in a <==> TombstoneFile() in b
  {
    hide TombstoneFile;
    hide Parse;
  }

  lemma {:induction false} UntouchedMark(env: Env, a: Files, b: Files)
    requires Untouched(a, b)
    ensures Marked(env, a) == Marked(env, b) && (TombstoneFile() in a <==> TombstoneFile() in b)
  {
    DenNames();
    hide TombstoneFile;
    hide LockFile;
    hide PeltFile;
    hide IsTemporary;
    MarkedByFile(env, a, b);
  }

  lemma {:induction false} StandsHasTombstone(env: Env, files: Files, t: Tombstone)
    requires Stands(env, files, t)
    ensures TombstoneFile() in files
  {
    hide Clean;
    hide Parse;
  }

  /** A Tombstone, once it stands, stands after every further life. */
  lemma {:induction false} StandsThroughLife(env: Env, before: Files, life: Life, t: Tombstone)
    requires env.Faithful() && Sober(life) && Stands(env, before, t) && Leaves(env, before, life)
    ensures Stands(env, life.files, t)
  {
    StandsHasTombstone(env, before, t);
    if Marked(env, before) == Some(Finished(t)) && Clean(before) {
      LaterStartsChangeNothing(env, before, life, t);
      hide Live;
      hide Env.Faithful;
      hide Marked;
      hide Clean;
    } else {
      NoCommits(env, before, life);
      hide Live;
      hide Env.Faithful;
      hide TombstoneFile;
      hide LockFile;
      hide Resolves;
      hide Clean;
      hide Encode;
      hide Marked;
      hide Untouched;
      PlainLife(env, before, life.faults, life.order, life.files);
      if Untouched(before, life.files) {
        UntouchedMark(env, before, life.files);
      }
    }
  }

  lemma {:induction false} StandsThroughHistory(env: Env, before: Files, lives: seq<Life>, t: Tombstone)
    requires env.Faithful() && Sane(lives) && Stands(env, before, t) && History(env, before, lives)
    ensures Stands(env, Last(before, lives), t)
    decreases |lives|
  {
    hide Env.Faithful;
    hide Stands;
    hide Sober;
    hide Leaves;
    if lives != [] {
      StandsThroughLife(env, before, lives[0], t);
      LastOfRest(before, lives);
      StandsThroughHistory(env, lives[0].files, lives[1..], t);
    }
  }

  lemma {:induction false} UntouchedFurther(a: Files, b: Files, c: Files)
    requires Untouched(a, b) && Untouched(b, c)
    ensures Untouched(a, c)
  {
    hide IsTemporary;
    hide LockFile;
  }

  ghost predicate Uncommitted(lives: seq<Life>) {
    forall i :: 0 <= i < |lives| ==> lives[i].mutations == []
  }

  /** Over any history, commits included, no file beside the store is destroyed or altered unless the
      directory carries a Tombstone, and that Tombstone is finished only over a clean Den; without commits
      the same holds of every file. */
  lemma {:induction false} NothingLostUnmarked(env: Env, before: Files, lives: seq<Life>)
    requires env.Faithful() && Sane(lives) && History(env, before, lives)
    ensures Spared(before, Last(before, lives)) || exists t :: Stands(env, Last(before, lives), t)
    ensures Uncommitted(lives) ==>
      Untouched(before, Last(before, lives)) || exists t :: Stands(env, Last(before, lives), t)
    decreases |lives|
  {
    hide Env.Faithful;
    hide Stands;
    hide Sober;
    hide Leaves;
    hide NamesSpared;
    hide NamesKept;
    hide Subject;
    if lives == [] {
      SameUntouched(before);
      UntouchedIsSpared(before, before);
    } else {
      hide Untouched;
      hide Spared;
      var next, last := lives[0].files, Last(before, lives);
      LifeIsGuarded(env, before, lives[0]);
      LastOfRest(before, lives);
      NothingLostUnmarked(env, next, lives[1..]);
      var subject := Subject(env, before, lives[0].order);
      if subject.Some? && Stands(env, next, subject.value) {
        StandsThroughHistory(env, next, lives[1..], subject.value);
        assert Stands(env, last, subject.value);
      } else {
        if Spared(next, last) {
          SparedFurther(before, next, last);
        }
        if Untouched(before, next) && Untouched(next, last) {
          UntouchedFurther(before, next, last);
        }
      }
    }
  }

  lemma {:induction false} SameUntouched(files: Files)
    ensures Untouched(files, files)
  {
  }
}
