/** What a migration carries over, in terms of the flat files alone. */
module ProtectedLegacy {
  import opened Basics
  import opened Order
  import opened LocalFs
  import opened ProtectedDocuments
  import opened ProtectedState
  import opened ProtectedTheorems
  import opened ProtectedMigration
  import TPE = TargetPolicyEdits
  import TPR = TargetPolicyReading

  // ---------------------------------------------------------------- what the files say

  /** silver.json is there and says this mode. */
  predicate SaysMode(f: Store, files: Files, mode: string) {
    && "silver.json" in files && |files["silver.json"]| <= 4096
    && f.formats.silver.read(files["silver.json"]) == Some(SilverDocument(1, mode))
  }

  /** What a flat file lists: nothing when it is absent. */
  function Listed<T>(files: Files, name: string, read: seq<Byte> -> Option<seq<T>>): Option<seq<T>> {
    if name !in files then Some([])
    else if |files[name]| <= 1024 * 1024 then read(files[name])
    else None
  }

  ghost predicate PolicyReadable(f: Store, files: Files) {
    "target_policy.json" in files ==>
      && |files["target_policy.json"]| <= 1024 * 1024
      && f.formats.policy.read(files["target_policy.json"]).Some?
      && TPR.ValidDocument(f.formats.policy.read(files["target_policy.json"]).value)
  }

  /** Every flat file is absent, or within its limit, readable and valid. */
  ghost predicate FlatReadable(f: Store, files: Files) {
    var peers := Listed(files, "pack.json", f.formats.pack.read);
    var profiles := Listed(files, "fangs.json", f.formats.profiles.read);
    var active := Listed(files, "active_fangs.json", f.formats.active.read);
    && ("silver.json" !in files || SaysMode(f, files, "locked") || SaysMode(f, files, "open"))
    && peers.Some? && ValidPack(f.formats, peers.value)
    && PolicyReadable(f, files)
    && profiles.Some? && ValidProfiles(f.formats, profiles.value)
    && active.Some? && ValidActive(active.value, profiles.value)
  }

  ghost predicate SortedFrom<T(!new)>(key: T -> seq<int>, s: seq<T>, listed: Option<seq<T>>) {
    listed.Some? && multiset(s) == multiset(listed.value) && SortedBy(key, s)
  }

  /** The policy lets a peer through exactly where target_policy.json does; without the file, nowhere. */
  ghost predicate DecidesAsFile(f: Store, files: Files, p: TP.Policy) {
    forall peer, target, r ::
      TP.Authorize(p, peer, target, r).Some? <==>
        && "target_policy.json" in files
        && f.formats.policy.read(files["target_policy.json"]).Some?
        && TPR.Passes(target, r, TPR.AllowedBy(f.formats.policy.read(files["target_policy.json"]).value, peer))
  }

  /** A state that says what the flat files say. */
  ghost predicate CarriedOver(f: Store, files: Files, s: State) {
    && (s.silverLocked <==> "silver.json" !in files || SaysMode(f, files, "locked"))
    && SortedFrom(PeerKey, s.peers, Listed(files, "pack.json", f.formats.pack.read))
    && SortedFrom(ProfileKey, s.profiles, Listed(files, "fangs.json", f.formats.profiles.read))
    && SortedFrom(TP.Codes, s.active, Listed(files, "active_fangs.json", f.formats.active.read))
    && DecidesAsFile(f, files, s.policy)
    && s.governance == None
  }

  // ---------------------------------------------------------------- reading them

  lemma {:induction false} ModesDiffer()
    ensures "locked" != "open"
  {
    assert "locked"[0] != "open"[0];
  }

  lemma {:induction false} SilverExactly(f: Store, files: Files)
    ensures LegacySilver(f, files).Some? <==>
      "silver.json" !in files || SaysMode(f, files, "locked") || SaysMode(f, files, "open")
    ensures LegacySilver(f, files).Some? ==>
      (LegacySilver(f, files).value <==> "silver.json" !in files || SaysMode(f, files, "locked"))
  {
    ModesDiffer();
    if "silver.json" in files && f.formats.silver.read(files["silver.json"]).Some? {
      var doc := f.formats.silver.read(files["silver.json"]).value;
      assert doc == SilverDocument(doc.version, doc.mode);
    }
  }

  lemma {:induction false} ListsExactly(f: Store, files: Files)
    ensures LegacyPack(f, files) ==
      var listed := Listed(files, "pack.json", f.formats.pack.read);
      if listed.Some? && ValidPack(f.formats, listed.value) then listed else None
    ensures LegacyProfiles(f, files) ==
      var listed := Listed(files, "fangs.json", f.formats.profiles.read);
      if listed.Some? && ValidProfiles(f.formats, listed.value) then listed else None
    ensures
      var listed := Listed(files, "active_fangs.json", f.formats.active.read);
      forall profiles ::
        LegacyActive(f, files, profiles) == if listed.Some? && ValidActive(listed.value, profiles) then listed else None
  {
    NothingIsValid(f.formats);
    hide ValidPack;
    hide ValidProfiles;
    hide ValidActive;
  }

  lemma {:induction false} PolicyExactly(f: Store, files: Files)
    requires f.formats.policy.Faithful()
    ensures LegacyPolicy(f, files).Some? <==> PolicyReadable(f, files)
    ensures LegacyPolicy(f, files).Some? ==> DecidesAsFile(f, files, TP.Normal(LegacyPolicy(f, files).value))
  {
    if "target_policy.json" !in files {
      NothingAllowed(f, files);
    } else if |files["target_policy.json"]| <= 1024 * 1024 {
      PolicyFileExactly(f.formats.policy, files["target_policy.json"]);
      hide TP.Canonicalize;
      hide TP.ParseCanonical;
      hide TP.Normal;
      hide TP.Authorize;
      hide TPR.Passes;
      hide TPR.AllowedBy;
      hide TPR.ValidDocument;
    }
  }

  lemma {:induction false} NothingAllowed(f: Store, files: Files)
    requires "target_policy.json" !in files
    ensures DecidesAsFile(f, files, TP.Normal(TP.Deny))
  {
    forall peer, target, r ensures TP.Authorize(TP.Granted([]), peer, target, r).None? {
      hide TP.Resolve;
      hide TP.AsSet;
      hide TP.Supported;
      assert TP.Grant([], peer) == None;
    }
    hide TP.Authorize;
    hide TPR.Passes;
    hide TPR.AllowedBy;
  }

  /** Canonicalizing and reading exactly gives the normal form of what the document reads as. */
  lemma {:induction false} PolicyFileExactly(json: Codec<TP.PolicyDocument>, bytes: seq<Byte>)
    requires json.Faithful()
    ensures var doc, canonical := json.read(bytes), TP.Canonicalize(json, bytes);
      var p := if canonical.Some? then TP.ParseCanonical(json, canonical.value) else None;
      && (p.Some? <==> doc.Some? && TPR.ValidDocument(doc.value))
      && (p.Some? ==> forall peer, target, r ::
            TP.Authorize(TP.Normal(p.value), peer, target, r).Some? <==>
              TPR.Passes(target, r, TPR.AllowedBy(doc.value, peer)))
  {
    TPR.AcceptedExactly(json, bytes);
    var file := TP.ParseFile(json, bytes);
    if file.Some? && !TP.PolicyFrom(file.value).Invalid? {
      var p := TP.PolicyFrom(file.value);
      TPE.ReadStorable(json, bytes);
      hide TP.ParseFile;
      hide TP.PolicyFrom;
      TPT.PolicyReadsBack(json, p);
      var canonical := TP.Canonical(json, p).value;
      assert TP.Canonicalize(json, bytes) == Some(canonical);
      assert TP.ParseCanonical(json, canonical) == Some(TP.Normal(p));
      TPE.ParsedStorable(json, canonical);
      hide TP.ParseCanonical;
      hide TP.Canonicalize;
      hide TP.Canonical;
      hide TP.WellFormed;
      hide TP.Readable;
      hide TPT.Plain;
      hide TP.Normal;
      forall peer, target, r
        ensures TP.Authorize(TP.Normal(TP.Normal(p)), peer, target, r).Some? <==>
          TPR.Passes(target, r, TPR.AllowedBy(json.read(bytes).value, peer))
      {
        TPT.StoringKeepsDecisions(p, peer, target, r);
        TPT.StoringKeepsDecisions(TP.Normal(p), peer, target, r);
        TPR.ReadingDecides(json, bytes, peer, target, r);
        hide TP.Authorize;
        hide TPR.Passes;
        hide TPR.AllowedBy;
        hide TPR.ValidDocument;
      }
      hide TP.Authorize;
      hide TPR.Passes;
      hide TPR.AllowedBy;
      hide TPR.ValidDocument;
    } else {
      hide TPR.ValidDocument;
      hide TP.ParseFile;
      hide TP.PolicyFrom;
      hide TP.ParseCanonical;
      assert TP.Canonicalize(json, bytes) == None;
      hide TP.Canonicalize;
      hide TP.Authorize;
      hide TPR.Passes;
      hide TPR.AllowedBy;
    }
  }

  lemma {:induction false} SortedFromSort<T(!new)>(key: T -> seq<int>, s: seq<T>)
    ensures SortedFrom(key, SortBy(key, s), Some(s))
  {
    SortBySorted(key, s);
  }

  lemma {:induction false} StatesCarryOver(f: Store, files: Files, s: State)
    requires s.silverLocked <==> "silver.json" !in files || SaysMode(f, files, "locked")
    requires Listed(files, "pack.json", f.formats.pack.read) == Some(s.peers)
    requires Listed(files, "fangs.json", f.formats.profiles.read) == Some(s.profiles)
    requires Listed(files, "active_fangs.json", f.formats.active.read) == Some(s.active)
    requires DecidesAsFile(f, files, TP.Normal(s.policy)) && s.governance == None
    ensures CarriedOver(f, files, Normal(s))
  {
    hide DecidesAsFile;
    hide SaysMode;
    hide Listed;
    hide TP.Normal;
    SortedFromSort(PeerKey, s.peers);
    SortedFromSort(ProfileKey, s.profiles);
    SortedFromSort(TP.Codes, s.active);
    hide SortedFrom;
    hide SortBy;
  }

  /** The flat files form a state exactly when they are readable, and its stored form says what they say. */
  lemma {:induction false} LegacyExactly(f: Store, files: Files)
    requires f.formats.policy.Faithful()
    ensures LegacyState(f, files).Some? <==> FlatReadable(f, files)
    ensures LegacyState(f, files).Some? ==> CarriedOver(f, files, Normal(LegacyState(f, files).value))
  {
    hide LegacySilver;
    hide LegacyPack;
    hide LegacyPolicy;
    hide LegacyProfiles;
    hide LegacyActive;
    hide PolicyReadable;
    hide DecidesAsFile;
    hide SaysMode;
    hide Listed;
    hide ValidPack;
    hide ValidProfiles;
    hide ValidActive;
    hide TP.Normal;
    hide CarriedOver;
    hide Normal;
    SilverExactly(f, files);
    ListsExactly(f, files);
    PolicyExactly(f, files);
    if LegacyState(f, files).Some? {
      StatesCarryOver(f, files, LegacyState(f, files).value);
    }
  }

  // ---------------------------------------------------------------- the migration

  /** The first generation, saying what these files say. */
  ghost predicate FirstFrom(f: Store, files: Files, loaded: Loaded) {
    loaded.Loaded? && loaded.generation == Generation(1, A) && CarriedOver(f, files, loaded.state)
  }

  /** An activated migration loads a first generation that says what the flat files said; a Den whose flat
      files do not read is left as it is; and no failure or crash leaves a generation that says anything
      else. */
  lemma {:induction false} MigrationCarriesOver(f: Store, w: World)
    requires f.Faithful() && Quiet(w) && LoadCurrent(f, w.view) == Nothing
    ensures var (w', t) := Migrate(f, w);
      && (t.Activated? ==> FlatReadable(f, w.view) && FirstFrom(f, w.view, Load(f, w'.view)))
      && (!FlatReadable(f, w.view) ==> t == Rejected && w'.view == w.view && w'.synced == w.synced)
      && (forall files :: Resolves(w', files) ==>
            Load(f, files) in {Legacy, Refused} || FirstFrom(f, w.view, Load(f, files)))
  {
    assert f.formats.policy.Faithful();
    hide Store.Faithful;
    hide Quiet;
    hide LoadCurrent;
    hide LegacyState;
    hide FlatReadable;
    hide CarriedOver;
    hide Normal;
    hide Migrate;
    hide Holds;
    hide Load;
    hide Resolves;
    MigrationIsCrashSafe(f, w);
    LegacyExactly(f, w.view);
    var (w', t) := Migrate(f, w);
    if LegacyState(f, w.view).Some? {
      var first := Loaded(FIRST, Normal(LegacyState(f, w.view).value));
      assert FirstFrom(f, w.view, first);
      if t.Activated? {
        LoadsAsHeld(f, w'.view, first);
      }
    }
    hide FirstFrom;
  }

  lemma {:induction false} LoadsAsHeld(f: Store, files: Files, first: Loaded)
    requires Holds(f, files, FIRST, first)
    ensures Load(f, files) == first
  {
    HoldsLoads(f, files, FIRST, first);
  }

  /** Nothing of the flat files is too long once written as documents. */
  ghost predicate FitsDocuments(f: Store, files: Files) {
    forall s :: LegacyState(f, files) == Some(s) && DocumentsOf(f.formats, s).Some? ==>
      Small(SlotWrites(f, FIRST, DocumentsOf(f.formats, s).value))
  }

  /** With a working directory a legacy Den migrates exactly when its flat files read. */
  lemma {:induction false} HealthyMigrationActivates(f: Store, w: World)
    requires f.Faithful() && w.up && w.faults == [] && LoadCurrent(f, w.view) == Nothing && FitsDocuments(f, w.view)
    ensures Migrate(f, w).1 == if FlatReadable(f, w.view) then Activated(FIRST) else Rejected
  {
    assert f.formats.policy.Faithful();
    LegacyExactly(f, w.view);
    hide FlatReadable;
    hide CarriedOver;
    LegacyHasNoSelector(f, w.view);
    if LegacyState(f, w.view).Some? {
      var s := LegacyState(f, w.view).value;
      LegacyParts(f, w.view);
      LegacyPolicyStorable(f, w.view);
      DocumentsExist(f.formats, s);
      MigrateIsMarking(f, w, s);
      hide Migrate;
      HealthyMarking(f, w, s);
    } else {
      hide LegacyState;
      hide LoadCurrent;
    }
  }

  lemma {:induction false} HealthyMarking(f: Store, w: World, s: State)
    requires f.Faithful() && w.up && w.faults == [] && CurrentFile() !in w.view && ModeFile() !in w.view
    requires DocumentsOf(f.formats, s).Some? && Small(SlotWrites(f, FIRST, DocumentsOf(f.formats, s).value))
    ensures var (w1, slot) := WriteSlot(f, Reading(w), FIRST, s); slot == Durable && Marking(f, w1).1 == Durable
  {
    var d := DocumentsOf(f.formats, s).value;
    hide DocumentsOf;
    HealthyWrites(Reading(w), SlotWrites(f, FIRST, d));
    var w1 := WriteAll(Reading(w), SlotWrites(f, FIRST, d)).0;
    assert |f.mode.write(MODE)| <= MANIFEST_LIMIT;
    assert |Pointer(f, FIRST)| <= MANIFEST_LIMIT;
    hide Store.Faithful;
    hide Pointer;
    NamesDiffer();
    SlotWritesNames(f, FIRST, d);
    MissingStays(Reading(w), SlotWrites(f, FIRST, d), SlotNames(A), CurrentFile());
    MissingStays(Reading(w), SlotWrites(f, FIRST, d), SlotNames(A), ModeFile());
    hide SlotFile;
    hide CurrentFile;
    hide ModeFile;
    hide SlotWrites;
    hide WriteAll;
    hide IsTemporary;
  }

  lemma {:induction false} MissingStays(w: World, writes: Writes, names: set<string>, name: string)
    requires WritesOnly(writes, names) && name !in names && name !in w.view && w.faults == []
    ensures name !in WriteAll(w, writes).0.view
    decreases |writes|
  {
    hide IsTemporary;
    if writes != [] {
      MissingStays(Replace(w, writes[0].0, writes[0].1, false).0, writes[1..], names, name);
    }
  }

  // ---------------------------------------------------------------- which directories are legacy

  /** Loading fails closed: a directory counts as a legacy Den exactly when no file of the store is in it, and
      one with part of the store, or with a store that does not read, is refused. */
  lemma {:induction false} OnlyEmptyIsLegacy(f: Store, files: Files)
    ensures Load(f, files) == Legacy <==>
      ModeFile() !in files && CurrentFile() !in files && forall slot, doc :: SlotFile(slot, doc) !in files
    ensures Load(f, files).Loaded? ==>
      && ModeFile() in files && f.mode.read(files[ModeFile()]) == Some(MODE)
      && CurrentFile() in files && f.current.read(files[CurrentFile()]).Some?
      && var current := f.current.read(files[CurrentFile()]).value;
         && current.schema == 1 && current.generation > 0
         && Load(f, files).generation == Generation(current.generation, current.slot)
  {
    hide ModeFile;
    hide CurrentFile;
    hide SlotFile;
    hide ManifestOf;
    hide ReadDocuments;
    hide ReadManifest;
    hide ParseDocuments;
  }

  // ---------------------------------------------------------------- documents as flat files

  /** The documents of a generation under the names of the flat files. */
  function FlatFilesOf(d: Documents): Files {
    map["silver.json" := d.silver, "pack.json" := d.pack, "target_policy.json" := d.policy,
        "fangs.json" := d.fangs, "active_fangs.json" := d.active]
  }

  lemma {:induction false} FlatNames(d: Documents)
    ensures var files := FlatFilesOf(d);
      && "silver.json" in files && files["silver.json"] == d.silver
      && "pack.json" in files && files["pack.json"] == d.pack
      && "target_policy.json" in files && files["target_policy.json"] == d.policy
      && "fangs.json" in files && files["fangs.json"] == d.fangs
      && "active_fangs.json" in files && files["active_fangs.json"] == d.active
  {
    assert "silver.json"[0] == 's' && "pack.json"[0] == 'p' && "target_policy.json"[0] == 't';
    assert "fangs.json"[0] == 'f' && "active_fangs.json"[0] == 'a';
  }

  lemma {:induction false} PolicyDocumentDecides(json: Codec<TP.PolicyDocument>, p: TP.Policy, bytes: seq<Byte>)
    requires json.Faithful() && TP.WellFormed(p) && TP.Readable(p) && TP.Canonical(json, p) == Some(bytes)
    ensures json.read(bytes).Some?
    ensures forall peer, target, r ::
      TP.Authorize(TP.Normal(p), peer, target, r).Some? <==>
        TPR.Passes(target, r, TPR.AllowedBy(json.read(bytes).value, peer))
  {
    TPT.PolicyReadsBack(json, p);
    assert TP.ParseCanonical(json, bytes) == Some(TP.Normal(p));
    assert TP.Canonicalize(json, bytes) == Some(bytes);
    PolicyFileExactly(json, bytes);
    TPE.ParsedStorable(json, bytes);
    hide TP.ParseCanonical;
    hide TP.Canonicalize;
    hide TP.Canonical;
    hide TP.Normal;
    hide TP.Readable;
    hide TP.WellFormed;
    hide TPT.Plain;
    hide TPR.Passes;
    hide TPR.AllowedBy;
    hide TPR.ValidDocument;
    forall peer, target, r
      ensures TP.Authorize(TP.Normal(p), peer, target, r).Some? <==>
        TPR.Passes(target, r, TPR.AllowedBy(json.read(bytes).value, peer))
    {
      TPT.StoringKeepsDecisions(TP.Normal(p), peer, target, r);
      hide TP.Authorize;
    }
    hide TP.Authorize;
  }

  lemma {:induction false} DocumentsRead(f: Formats, s: State, d: Documents)
    requires f.Faithful() && DocumentsOf(f, s) == Some(d)
    ensures f.silver.read(d.silver) == Some(SilverDocument(1, if s.silverLocked then "locked" else "open"))
    ensures f.pack.read(d.pack) == Some(SortBy(PeerKey, s.peers))
    ensures f.profiles.read(d.fangs) == Some(SortBy(ProfileKey, s.profiles))
    ensures f.active.read(d.active) == Some(SortBy(TP.Codes, s.active))
    ensures TP.Canonical(f.policy, s.policy) == Some(d.policy)
  {
    hide TP.Canonical;
    hide ValidPack;
    hide ValidProfiles;
    hide ValidActive;
    hide SortBy;
  }

  lemma {:induction false} FilesCarryOver(f: Store, files: Files, s: State)
    requires SaysMode(f, files, if s.silverLocked then "locked" else "open")
    requires Listed(files, "pack.json", f.formats.pack.read) == Some(SortBy(PeerKey, s.peers))
    requires Listed(files, "fangs.json", f.formats.profiles.read) == Some(SortBy(ProfileKey, s.profiles))
    requires Listed(files, "active_fangs.json", f.formats.active.read) == Some(SortBy(TP.Codes, s.active))
    requires DecidesAsFile(f, files, TP.Normal(s.policy))
    ensures CarriedOver(f, files, Normal(s.(governance := None)))
  {
    ModesDiffer();
    assert s.silverLocked <==> SaysMode(f, files, "locked");
    hide DecidesAsFile;
    hide Listed;
    hide TP.Normal;
    SortBySorted(PeerKey, s.peers);
    SortBySorted(ProfileKey, s.profiles);
    SortBySorted(TP.Codes, s.active);
    hide SortBy;
    hide SortedBy;
    assert "silver.json" in files;
    hide SaysMode;
  }

  /** What a generation holds on disk is what the flat files of a Den with the same state would say: its silver
      document says "locked" exactly when it is, its lists list, and its policy decides as it is written. */
  lemma {:induction false} DocumentsSayTheState(f: Store, s: State, d: Documents)
    requires f.formats.Faithful() && DocumentsOf(f.formats, s) == Some(d)
    requires TP.WellFormed(s.policy) && TP.Readable(s.policy)
    requires |d.silver| <= 4096 && |d.pack| <= 1024 * 1024 && |d.fangs| <= 1024 * 1024 && |d.active| <= 1024 * 1024
    ensures CarriedOver(f, FlatFilesOf(d), Normal(s.(governance := None)))
  {
    hide DocumentsOf;
    hide TP.WellFormed;
    hide TP.Readable;
    hide TP.Canonical;
    hide TP.Normal;
    hide TP.Authorize;
    hide TPR.Passes;
    hide TPR.AllowedBy;
    hide SortBy;
    hide CarriedOver;
    hide FlatFilesOf;
    var files, g := FlatFilesOf(d), f.formats;
    FlatNames(d);
    DocumentsRead(g, s, d);
    PolicyDocumentDecides(g.policy, s.policy, d.policy);
    assert DecidesAsFile(f, files, TP.Normal(s.policy));
    hide DecidesAsFile;
    FilesCarryOver(f, files, s);
  }

  /** Losing the marker, the selector or both never turns a Den with a generation back into a legacy one. */
  lemma {:induction false} DeletionsNeverDowngrade(f: Store, files: Files, g: Generation, s: State, gone: set<string>)
    requires Holds(f, files, g, Loaded(g, s)) && gone != {} && gone <= {ModeFile(), CurrentFile()}
    ensures Load(f, files - gone) == Refused
  {
    NamesDiffer();
    assert SlotFile(g.slot, ManifestDoc) in files;
    hide SlotFile;
    hide ModeFile;
    hide CurrentFile;
    hide Holds;
    OnlyEmptyIsLegacy(f, files - gone);
    hide LoadCurrent;
    hide LoadSlot;
    assert ModeFile() in gone || CurrentFile() in gone;
    assert SlotFile(g.slot, ManifestDoc) in files - gone;
  }
}
