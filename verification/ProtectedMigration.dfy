/** From flat files to generation one, and what a manifest pins down. */
module ProtectedMigration {
  import opened Basics
  import opened LocalFs
  import opened ProtectedDocuments
  import opened ProtectedState
  import opened ProtectedTheorems
  import Governance
  import TPE = TargetPolicyEdits
  import GD = GovernanceDocument

  lemma {:induction false} WriteSlotLocal(f: Store, w: World, g: Generation, s: State)
    requires Quiet(w)
    ensures var (w', o) := WriteSlot(f, w, g, s);
      && SameBut(w'.view, w.view, SlotNames(g.slot))
      && SameBut(w'.synced, w.view, SlotNames(g.slot))
      && (o != Indeterminate ==> Quiet(w'))
  {
    hide DocumentsOf;
    if DocumentsOf(f.formats, s).Some? {
      var d := DocumentsOf(f.formats, s).value;
      SlotWritesNames(f, g, d);
      WriteAllEnds(w, SlotWrites(f, g, d), SlotNames(g.slot));
    }
    hide IsTemporary;
  }

  /** Without a selector a directory is a legacy one or is refused. */
  lemma {:induction false} WithoutSelector(f: Store, files: Files)
    requires CurrentFile() !in files
    ensures Load(f, files) == Legacy || Load(f, files) == Refused
  {
    hide ModeFile;
    hide CurrentFile;
    hide LoadSlot;
  }

  lemma {:induction false} SlotStillWritten(f: Store, a: Files, b: Files, g: Generation, d: Documents)
    requires SlotWritten(f, a, g, d) && SameBut(b, a, {ModeFile()})
    ensures SlotWritten(f, b, g, d)
  {
    SequenceNames(f, g, d);
    NamesDiffer();
    hide IsTemporary;
    hide SlotFile;
    hide ModeFile;
    hide SlotWrites;
    hide Sequence;
  }

  /** What a restart may find while generation one is being made. */
  ghost predicate Migrating(f: Store, files: Files, first: Loaded) {
    Load(f, files) == Legacy || Load(f, files) == Refused || Holds(f, files, FIRST, first)
  }

  lemma {:induction false} StillUnselected(
      f: Store, w: World, base: Files, names: set<string>, files: Files, first: Loaded)
    requires SameBut(w.view, base, names) && SameBut(w.synced, base, names) && Resolves(w, files)
    requires CurrentFile() !in base && CurrentFile() !in names && !IsTemporary(CurrentFile())
    ensures Migrating(f, files, first)
  {
    hide IsTemporary;
    hide CurrentFile;
    hide Load;
    hide Holds;
    ResolutionsSame(w, files, base, names);
    assert Lookup(files, CurrentFile()) == Lookup(base, CurrentFile());
    WithoutSelector(f, files);
  }

  /** The last write of a migration: before it nothing is selected, after it generation one is. */
  lemma {:induction false} FirstSelection(f: Store, w: World, d: Documents, first: Loaded)
    requires f.Faithful() && Quiet(w) && SlotWritten(f, w.view, FIRST, d) && first == Parsed(f, FIRST, d)
    requires Lookup(w.view, ModeFile()) == Some(f.mode.write(MODE)) && CurrentFile() !in w.view
    ensures var (w', o) := Replace(w, CurrentFile(), Pointer(f, FIRST), true);
      && (o == Durable ==> Quiet(w') && w'.up && Holds(f, w'.view, FIRST, first))
      && forall files :: Resolves(w', files) ==> Migrating(f, files, first)
  {
    var (w', o) := Replace(w, CurrentFile(), Pointer(f, FIRST), true);
    NamesDiffer();
    ReplaceEnds(w, CurrentFile(), Pointer(f, FIRST), true);
    hide IsTemporary;
    hide Replace;
    hide ModeFile;
    hide CurrentFile;
    hide SlotWritten;
    hide Parsed;
    hide Pointer;
    hide Store.Faithful;
    hide Holds;
    hide Load;
    if o == NotCommitted {
      forall files | Resolves(w', files) ensures Migrating(f, files, first) {
        StillUnselected(f, w', w.view, {}, files, first);
      }
    } else {
      SelectorWritten(w, w', Pointer(f, FIRST));
      forall files | Resolves(w', files) ensures Migrating(f, files, first) {
        assert SameBut(files, w.view, {CurrentFile()});
        if CurrentFile() in files {
          SelectorSwitches(f, w.view, files, FIRST, d);
        } else {
          WithoutSelector(f, files);
        }
      }
      if o == Durable {
        SelectorSwitches(f, w.view, w'.view, FIRST, d);
      }
    }
  }

  lemma {:induction false} LegacyHasNoSelector(f: Store, files: Files)
    requires LoadCurrent(f, files) == Nothing
    ensures CurrentFile() !in files && ModeFile() !in files
  {
    hide ModeFile;
    hide CurrentFile;
  }

  /** Writing the mode marker and the selector after a complete slot. */
  ghost function Marking(f: Store, w: World): (World, Outcome) {
    var (w2, mode) := Replace(w, ModeFile(), f.mode.write(MODE), true);
    if mode != Durable then (w2, mode) else Replace(w2, CurrentFile(), Pointer(f, FIRST), true)
  }

  lemma {:induction false} MarkingEnds(f: Store, w: World, d: Documents, first: Loaded)
    requires f.Faithful() && Quiet(w) && SlotWritten(f, w.view, FIRST, d) && first == Parsed(f, FIRST, d)
    requires CurrentFile() !in w.view
    ensures var (w', o) := Marking(f, w);
      && (o == Durable ==> Quiet(w') && w'.up && Holds(f, w'.view, FIRST, first))
      && forall files :: Resolves(w', files) ==> Migrating(f, files, first)
  {
    var bytes := f.mode.write(MODE);
    var (w2, mode) := Replace(w, ModeFile(), bytes, true);
    NamesDiffer();
    ReplaceEnds(w, ModeFile(), bytes, true);
    hide IsTemporary;
    hide Replace;
    hide ModeFile;
    hide CurrentFile;
    hide SlotWritten;
    hide Parsed;
    hide Pointer;
    hide Store.Faithful;
    hide Holds;
    hide Migrating;
    assert SameBut(w2.view, w.view, {ModeFile()}) && SameBut(w2.synced, w.view, {ModeFile()});
    if mode == Durable {
      SlotStillWritten(f, w.view, w2.view, FIRST, d);
      FirstSelection(f, w2, d, first);
    } else {
      forall files | Resolves(w2, files) ensures Migrating(f, files, first) {
        StillUnselected(f, w2, w.view, {ModeFile()}, files, first);
      }
    }
  }

  lemma {:induction false} MigrateIsMarking(f: Store, w: World, s: State)
    requires LoadCurrent(f, w.view) == Nothing && LegacyState(f, w.view) == Some(s)
    requires w.up && NextFault(w).Works?
    ensures var (w1, slot) := WriteSlot(f, Reading(w), FIRST, s);
      Migrate(f, w) ==
        if slot != Durable then (w1, Ended(slot, FIRST))
        else (Marking(f, w1).0, Ended(Marking(f, w1).1, FIRST))
  {
    hide LoadCurrent;
    hide LegacyState;
    hide WriteSlot;
    hide Replace;
    hide ModeFile;
    hide CurrentFile;
  }

  lemma {:induction false} LegacyPolicyStorable(f: Store, files: Files)
    requires LegacyPolicy(f, files).Some?
    ensures var p := LegacyPolicy(f, files).value;
      TP.WellFormed(p) && TP.Readable(p) && TP.Canonical(f.formats.policy, p).Some?
  {
    hide TP.Canonicalize;
    var p := LegacyPolicy(f, files).value;
    if !p.Deny? {
      var bytes := files["target_policy.json"];
      var canonical := TP.Canonicalize(f.formats.policy, bytes).value;
      TPE.ParsedStorable(f.formats.policy, canonical);
    }
    hide TP.ParseCanonical;
    hide TP.WellFormed;
  }

  lemma {:induction false} LegacyParts(f: Store, files: Files)
    requires LegacyState(f, files).Some?
    ensures var s := LegacyState(f, files).value;
      && ValidPack(f.formats, s.peers) && ValidProfiles(f.formats, s.profiles) && ValidActive(s.active, s.profiles)
      && LegacyPolicy(f, files) == Some(s.policy) && s.governance == None
  {
    hide LegacyPolicy;
    hide LegacySilver;
    LegacyListsValid(f, files);
    hide ValidPack;
    hide ValidProfiles;
    hide ValidActive;
    hide LegacyPack;
    hide LegacyProfiles;
    hide LegacyActive;
  }

  lemma {:induction false} LegacyListsValid(f: Store, files: Files)
    ensures LegacyPack(f, files).Some? ==> ValidPack(f.formats, LegacyPack(f, files).value)
    ensures LegacyProfiles(f, files).Some? ==> ValidProfiles(f.formats, LegacyProfiles(f, files).value)
    ensures forall profiles :: LegacyActive(f, files, profiles).Some? ==>
      ValidActive(LegacyActive(f, files, profiles).value, profiles)
  {
    NothingIsValid(f.formats);
    hide ValidPack;
    hide ValidProfiles;
    hide ValidActive;
  }

  lemma {:induction false} NothingIsValid(f: Formats)
    ensures ValidPack(f, []) && ValidProfiles(f, []) && forall profiles :: ValidActive([], profiles)
  {
  }

  lemma {:induction false} DocumentsExist(f: Formats, s: State)
    requires ValidPack(f, s.peers) && ValidProfiles(f, s.profiles) && ValidActive(s.active, s.profiles)
    requires TP.Canonical(f.policy, s.policy).Some? && s.governance == None
    ensures DocumentsOf(f, s).Some?
  {
    hide ValidPack;
    hide ValidProfiles;
    hide ValidActive;
    hide TP.Canonical;
  }

  /** The flat files of a legacy Den, once read, are always a state that can be stored and loaded. */
  lemma {:induction false} LegacyLoads(f: Store, files: Files)
    requires f.Faithful() && LegacyState(f, files).Some?
    ensures After(f, FIRST, LegacyState(f, files).value) == Loaded(FIRST, Normal(LegacyState(f, files).value))
  {
    hide LegacyState;
    hide LegacyPolicy;
    hide ValidPack;
    hide ValidProfiles;
    hide ValidActive;
    hide DocumentsOf;
    hide ParseDocuments;
    hide TP.WellFormed;
    hide TP.Readable;
    hide TP.Canonical;
    var s := LegacyState(f, files).value;
    LegacyParts(f, files);
    LegacyPolicyStorable(f, files);
    DocumentsExist(f.formats, s);
    StateReadsBack(f.formats, s);
  }

  lemma {:induction false} MigrationEnds(f: Store, w: World)
    requires f.Faithful() && Quiet(w) && LoadCurrent(f, w.view) == Nothing
    ensures var (w', t) := Migrate(f, w);
      && (t.Activated? ==>
            && LegacyState(f, w.view).Some? && t.generation == FIRST && w'.up && Quiet(w')
            && Holds(f, w'.view, FIRST, After(f, FIRST, LegacyState(f, w.view).value)))
      && (LegacyState(f, w.view).None? ==> t == Rejected && w'.view == w.view && w'.synced == w.synced)
      && forall files :: Resolves(w', files) ==>
           Load(f, files) == Legacy || Load(f, files) == Refused ||
           (LegacyState(f, w.view).Some? && Load(f, files) == After(f, FIRST, LegacyState(f, w.view).value))
  {
    LegacyHasNoSelector(f, w.view);
    ReadingQuiet(w);
    var (w', t) := Migrate(f, w);
    var legacy := LegacyState(f, w.view);
    var first := if legacy.Some? then After(f, FIRST, legacy.value) else Refused;
    if w.up && NextFault(w).Works? && legacy.Some? {
      MigrateIsMarking(f, w, legacy.value);
      hide Migrate;
      MigrationWrites(f, Reading(w), legacy.value);
      hide Marking;
    } else {
      hide LoadCurrent;
      hide LegacyState;
      forall files | Resolves(w', files) ensures Migrating(f, files, first) {
        UntouchedMigrating(f, w, w', files, first);
      }
    }
    hide Migrate;
    hide LegacyState;
    hide After;
    forall files | Resolves(w', files) && Holds(f, files, FIRST, first) ensures Load(f, files) == first {
      HoldsLoads(f, files, FIRST, first);
    }
    hide Load;
    hide Holds;
  }

  /** A crash or failure anywhere in a migration leaves a directory that loads as legacy, is refused,
      or loads as the complete first generation. */
  lemma {:induction false} MigrationIsCrashSafe(f: Store, w: World)
    requires f.Faithful() && Quiet(w) && LoadCurrent(f, w.view) == Nothing
    ensures var (w', t) := Migrate(f, w);
      && (t.Activated? ==>
            && LegacyState(f, w.view).Some? && t.generation == FIRST && w'.up && Quiet(w')
            && Holds(f, w'.view, FIRST, Loaded(FIRST, Normal(LegacyState(f, w.view).value))))
      && (LegacyState(f, w.view).None? ==> t == Rejected && w'.view == w.view && w'.synced == w.synced)
      && forall files :: Resolves(w', files) ==>
           Load(f, files) == Legacy || Load(f, files) == Refused ||
           (LegacyState(f, w.view).Some? && Load(f, files) == Loaded(FIRST, Normal(LegacyState(f, w.view).value)))
  {
    hide Store.Faithful;
    hide Quiet;
    hide LoadCurrent;
    hide LegacyState;
    hide Migrate;
    hide After;
    hide Normal;
    hide Load;
    hide Holds;
    hide Resolves;
    MigrationEnds(f, w);
    if LegacyState(f, w.view).Some? {
      LegacyLoads(f, w.view);
    }
  }

  lemma {:induction false} UntouchedMigrating(f: Store, w: World, w': World, files: Files, first: Loaded)
    requires Quiet(w) && w'.view == w.view && w'.synced == w.synced && Resolves(w', files)
    requires CurrentFile() !in w.view
    ensures Migrating(f, files, first)
  {
    NamesDiffer();
    hide IsTemporary;
    hide CurrentFile;
    StillUnselected(f, w', w.view, {}, files, first);
  }

  lemma {:induction false} MigrationWrites(f: Store, w: World, s: State)
    requires f.Faithful() && Quiet(w) && CurrentFile() !in w.view
    ensures var (w1, slot) := WriteSlot(f, w, FIRST, s);
      var first := After(f, FIRST, s);
      if slot != Durable then forall files :: Resolves(w1, files) ==> Migrating(f, files, first)
      else
        var (w', o) := Marking(f, w1);
        && (o == Durable ==> Quiet(w') && w'.up && Holds(f, w'.view, FIRST, first))
        && forall files :: Resolves(w', files) ==> Migrating(f, files, first)
  {
    var (w1, slot) := WriteSlot(f, w, FIRST, s);
    var first := After(f, FIRST, s);
    WriteSlotLocal(f, w, FIRST, s);
    NamesDiffer();
    hide SlotFile;
    hide IsTemporary;
    hide CurrentFile;
    hide ModeFile;
    hide Store.Faithful;
    hide Holds;
    hide Migrating;
    assert CurrentFile() !in SlotNames(A);
    if slot == Durable {
      WriteSlotWrites(f, w, FIRST, s);
      hide DocumentsOf;
      hide WriteSlot;
      assert Lookup(w1.view, CurrentFile()) == Lookup(w.view, CurrentFile());
      MarkingEnds(f, w1, DocumentsOf(f.formats, s).value, first);
    } else {
      hide WriteSlot;
      hide SlotNames;
      forall files | Resolves(w1, files) ensures Migrating(f, files, first) {
        StillUnselected(f, w1, w.view, SlotNames(A), files, first);
      }
    }
  }

  // ---------------------------------------------------------------- the manifest binds its documents

  ghost predicate HashCollision(f: Store) {
    exists x, y :: x != y && f.hash(x) == f.hash(y)
  }

  lemma {:induction false} CommitmentBinds(f: Store, document: string, x: seq<Byte>, y: seq<Byte>)
    requires Commitment(f, document, x) == Commitment(f, document, y)
    ensures x == y || HashCollision(f)
  {
    var a, b := DocumentInput(document, x), DocumentInput(document, y);
    GD.UnhexHex(f.hash(a));
    GD.UnhexHex(f.hash(b));
    assert f.hash(a) == f.hash(b);
    if a == b {
      var n := |a| - |x|;
      assert a[n..] == x && b[|b| - |y|..] == y;
    }
  }

  lemma {:induction false} ManifestDetermines(f: Store, number: U64, d: Documents, e: Documents)
    requires ManifestOf(f, number, d) == ManifestOf(f, number, e)
    ensures d == e || HashCollision(f)
  {
    hide HashCollision;
    CommitmentBinds(f, "pack", d.pack, e.pack);
    CommitmentBinds(f, "silver", d.silver, e.silver);
    CommitmentBinds(f, "target-policy", d.policy, e.policy);
    CommitmentBinds(f, "fangs", d.fangs, e.fangs);
    CommitmentBinds(f, "active-fangs", d.active, e.active);
    if d.governance.Some? && e.governance.Some? {
      CommitmentBinds(f, "governance", d.governance.value, e.governance.value);
    }
  }

  /** Two directories that load one generation under the same manifest load the same state: no mix of
      documents passes for a generation that was written. */
  lemma {:induction false} ManifestBindsState(f: Store, a: Files, b: Files, g: Generation, s: State, t: State)
    requires Lookup(a, SlotFile(g.slot, ManifestDoc)) == Lookup(b, SlotFile(g.slot, ManifestDoc))
    requires LoadSlot(f, a, g) == Loaded(g, s) && LoadSlot(f, b, g) == Loaded(g, t)
    ensures s == t || HashCollision(f)
  {
    hide SlotFile;
    hide ManifestOf;
    hide ParseDocuments;
    hide HashCollision;
    hide ReadDocuments;
    var m := ReadManifest(f, a, g.slot).value;
    assert ReadManifest(f, b, g.slot) == Some(m);
    var d, e := ReadDocuments(a, g.slot, m).value, ReadDocuments(b, g.slot, m).value;
    ManifestDetermines(f, g.number, d, e);
  }

  // ---------------------------------------------------------------- without failures

  predicate Small(writes: Writes) {
    forall i :: 0 <= i < |writes| ==> |writes[i].1| <= FILE_LIMIT
  }

  lemma {:induction false} HealthyWrites(w: World, writes: Writes)
    requires w.up && w.faults == [] && Small(writes)
    ensures WriteAll(w, writes).1 == Durable && WriteAll(w, writes).0.up && WriteAll(w, writes).0.faults == []
    decreases |writes|
  {
    if writes != [] {
      HealthyWrites(Replace(w, writes[0].0, writes[0].1, false).0, writes[1..]);
    }
  }

  /** With a working directory, a commit that names the active generation and whose documents fit
      activates the next one. */
  lemma {:induction false} HealthyCommitActivates(f: Store, w: World, g: Generation, s: State)
    requires f.Faithful() && w.up && w.faults == [] && LoadCurrent(f, w.view) == Selects(g) && g.number < U64_MAX
    requires DocumentsOf(f.formats, s).Some? && Small(SlotWrites(f, Next(g), DocumentsOf(f.formats, s).value))
    ensures Commit(f, w, g.number, s).1 == Activated(Next(g))
  {
    HealthyWrites(Reading(w), SlotWrites(f, Next(g), DocumentsOf(f.formats, s).value));
    assert |Pointer(f, Next(g))| <= MANIFEST_LIMIT;
    hide LoadCurrent;
    hide DocumentsOf;
    hide SlotWrites;
    hide CurrentFile;
    hide WriteAll;
    hide Pointer;
  }

  // ---------------------------------------------------------------- the chain head as a document

  /** The stored chain head is an exact document, so the store's premises hold of it. */
  lemma {:induction false} HeadsAreExact(json: Codec<GD.Document>)
    requires json.Faithful()
    ensures Exact((h: Governance.Head) => GD.Canonical(json, h), (b: seq<Byte>) => GD.Parse(json, b)).Inverse()
  {
    hide GD.Canonical;
    hide GD.Parse;
    forall h: Governance.Head, bytes: seq<Byte>
      ensures GD.Parse(json, bytes) == Some(h) <==> GD.Canonical(json, h) == Some(bytes)
    {
      GD.ParseExact(json, bytes, h);
    }
  }
}
