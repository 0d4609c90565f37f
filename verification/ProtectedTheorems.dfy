/** Crash safety of the two-slot store. */
module ProtectedTheorems {
  import opened Basics
  import opened LocalFs
  import opened ProtectedDocuments
  import opened ProtectedState

  // ---------------------------------------------------------------- writing a list of files

  ghost predicate WritesOnly(writes: Writes, names: set<string>) {
    forall i :: 0 <= i < |writes| ==> writes[i].0 in names && !IsTemporary(writes[i].0)
  }

  /** However a list of writes ends, nothing outside it changes, on disk or in view; and unless the
      last write is in doubt, view and disk agree. */
  lemma {:induction false} WriteAllEnds(w: World, writes: Writes, names: set<string>)
    requires Quiet(w) && WritesOnly(writes, names)
    ensures var (w', o) := WriteAll(w, writes);
      && SameBut(w'.view, w.view, names)
      && SameBut(w'.synced, w.view, names)
      && (o != Indeterminate ==> Quiet(w'))
      && (o == Durable && w.up ==> w'.up)
    decreases |writes|
  {
    hide IsTemporary;
    if writes != [] {
      var (name, data) := writes[0];
      var (w', o) := Replace(w, name, data, false);
      ReplaceEnds(w, name, data, false);
      hide Replace;
      if o == Durable {
        WriteAllEnds(w', writes[1..], names);
      }
    }
  }

  ghost predicate WritesApart(writes: Writes) {
    forall i, j :: 0 <= i < j < |writes| ==> writes[i].0 != writes[j].0
  }

  ghost function NamesOf(writes: Writes): set<string> {
    set i | 0 <= i < |writes| :: writes[i].0
  }

  /** After a durable run of writes every file holds what was written, and fits the size limit. */
  lemma {:induction false} WriteAllWrites(w: World, writes: Writes, i: nat)
    requires Quiet(w) && WritesOnly(writes, NamesOf(writes)) && WritesApart(writes)
    requires WriteAll(w, writes).1 == Durable && i < |writes|
    ensures Lookup(WriteAll(w, writes).0.view, writes[i].0) == Some(writes[i].1)
    ensures |writes[i].1| <= FILE_LIMIT
    decreases |writes|
  {
    hide IsTemporary;
    var (name, data) := writes[0];
    var (w', o) := Replace(w, name, data, false);
    ReplaceEnds(w, name, data, false);
    hide Replace;
    var rest := writes[1..];
    forall k | 0 <= k < |rest| ensures rest[k].0 in NamesOf(rest) && rest[k] == writes[k + 1] {
    }
    if i == 0 {
      WriteAllEnds(w', rest, NamesOf(rest));
      assert name !in NamesOf(rest);
    } else {
      WriteAllWrites(w', rest, i - 1);
    }
  }

  // ---------------------------------------------------------------- what loading looks at

  ghost function SlotNames(slot: Slot): set<string> {
    set doc: Doc :: SlotFile(slot, doc)
  }

  lemma {:induction false} SlotIndependent(f: Store, a: Files, b: Files, g: Generation)
    requires forall doc :: Lookup(a, SlotFile(g.slot, doc)) == Lookup(b, SlotFile(g.slot, doc))
    ensures LoadSlot(f, a, g) == LoadSlot(f, b, g)
  {
    hide SlotFile;
    hide ManifestOf;
    hide Parsed;
    hide ReadExact;
    forall doc, limit ensures Contents(a, g.slot, doc, limit) == Contents(b, g.slot, doc, limit) {
      assert Lookup(a, SlotFile(g.slot, doc)) == Lookup(b, SlotFile(g.slot, doc));
    }
    hide Contents;
    assert ReadManifest(f, a, g.slot) == ReadManifest(f, b, g.slot);
    if ReadManifest(f, a, g.slot).Some? {
      var m := ReadManifest(f, a, g.slot).value;
      assert ReadHead(a, g.slot, m) == ReadHead(b, g.slot, m);
      assert ReadDocuments(a, g.slot, m) == ReadDocuments(b, g.slot, m);
    }
  }

  /** A directory with an active generation, and what loading it gives. */
  ghost predicate Holds(f: Store, files: Files, g: Generation, loaded: Loaded) {
    LoadCurrent(f, files) == Selects(g) && LoadSlot(f, files, g) == loaded
  }

  lemma {:induction false} HoldsLoads(f: Store, files: Files, g: Generation, loaded: Loaded)
    requires Holds(f, files, g, loaded)
    ensures Load(f, files) == loaded
  {
  }

  lemma {:induction false} SelectorIndependent(f: Store, a: Files, b: Files, g: Generation)
    requires LoadCurrent(f, a) == Selects(g)
    requires Lookup(a, ModeFile()) == Lookup(b, ModeFile()) && Lookup(a, CurrentFile()) == Lookup(b, CurrentFile())
    ensures LoadCurrent(f, b) == Selects(g)
  {
    hide ModeFile;
    hide CurrentFile;
    hide ReadExact;
  }

  /** Changes to the inactive slot, and temporaries, are invisible to a load. */
  lemma {:induction false} InactiveInvisible(f: Store, a: Files, b: Files, g: Generation, loaded: Loaded)
    requires Holds(f, a, g, loaded) && SameBut(b, a, SlotNames(g.slot.Inactive()))
    ensures Holds(f, b, g, loaded)
  {
    hide LoadCurrent;
    hide LoadSlot;
    hide IsTemporary;
    NamesDiffer();
    hide SlotFile;
    hide ModeFile;
    hide CurrentFile;
    SelectorIndependent(f, a, b, g);
    SlotIndependent(f, a, b, g);
  }

  /** A slot holding every document of `d` under the manifest of generation `g`. */
  ghost predicate SlotWritten(f: Store, files: Files, g: Generation, d: Documents) {
    forall i :: 0 <= i < |SlotWrites(f, g, d)| ==>
      && Lookup(files, SlotWrites(f, g, d)[i].0) == Some(SlotWrites(f, g, d)[i].1)
      && |SlotWrites(f, g, d)[i].1| <= FILE_LIMIT
  }

  /** The order in which a slot's files are written. */
  function Sequence(d: Documents): seq<Doc> {
    [Pack, Silver, Policy, Fangs, Active] + (if d.governance.Some? then [Head] else []) + [ManifestDoc]
  }

  lemma {:induction false} SequenceNames(f: Store, g: Generation, d: Documents)
    ensures |SlotWrites(f, g, d)| == |Sequence(d)|
    ensures forall i :: 0 <= i < |Sequence(d)| ==> SlotWrites(f, g, d)[i].0 == SlotFile(g.slot, Sequence(d)[i])
    ensures forall i, j :: 0 <= i < j < |Sequence(d)| ==> Sequence(d)[i] != Sequence(d)[j]
  {
    hide SlotFile;
    hide ManifestOf;
  }

  lemma {:induction false} SlotWritesNames(f: Store, g: Generation, d: Documents)
    ensures WritesOnly(SlotWrites(f, g, d), SlotNames(g.slot))
    ensures WritesOnly(SlotWrites(f, g, d), NamesOf(SlotWrites(f, g, d)))
    ensures WritesApart(SlotWrites(f, g, d))
  {
    hide IsTemporary;
    NamesDiffer();
    SequenceNames(f, g, d);
    hide SlotFile;
    hide SlotWrites;
    hide Sequence;
  }

  lemma {:induction false} WrittenContents(f: Store, files: Files, g: Generation, d: Documents)
    requires SlotWritten(f, files, g, d)
    ensures Contents(files, g.slot, Pack, DOCUMENT_LIMIT) == Some(d.pack)
    ensures Contents(files, g.slot, Silver, DOCUMENT_LIMIT) == Some(d.silver)
    ensures Contents(files, g.slot, Policy, DOCUMENT_LIMIT) == Some(d.policy)
    ensures Contents(files, g.slot, Fangs, DOCUMENT_LIMIT) == Some(d.fangs)
    ensures Contents(files, g.slot, Active, DOCUMENT_LIMIT) == Some(d.active)
    ensures d.governance.Some? ==> Contents(files, g.slot, Head, DOCUMENT_LIMIT) == d.governance
    ensures Lookup(files, SlotFile(g.slot, ManifestDoc)) == Some(f.manifest.write(ManifestOf(f, g.number, d)))
  {
    hide SlotFile;
    hide ManifestOf;
    var writes := SlotWrites(f, g, d);
    assert writes[0] == (SlotFile(g.slot, Pack), d.pack);
    assert writes[1] == (SlotFile(g.slot, Silver), d.silver);
    assert writes[2] == (SlotFile(g.slot, Policy), d.policy);
    assert writes[3] == (SlotFile(g.slot, Fangs), d.fangs);
    assert writes[4] == (SlotFile(g.slot, Active), d.active);
    assert writes[|writes| - 1] == (SlotFile(g.slot, ManifestDoc), f.manifest.write(ManifestOf(f, g.number, d)));
    assert d.governance.Some? ==> writes[5] == (SlotFile(g.slot, Head), d.governance.value);
  }

  /** A fully written slot loads as what was written. */
  lemma {:induction false} WrittenLoads(f: Store, files: Files, g: Generation, d: Documents)
    requires f.Faithful() && SlotWritten(f, files, g, d)
    ensures LoadSlot(f, files, g) == Parsed(f, g, d)
  {
    WrittenContents(f, files, g, d);
    hide SlotFile;
    hide SlotWritten;
    hide Parsed;
    var m := ManifestOf(f, g.number, d);
    assert f.manifest.read(f.manifest.write(m)) == Some(m);
    hide ManifestOf;
    hide Formats.Faithful;
    assert |f.manifest.write(m)| <= MANIFEST_LIMIT;
    assert ReadManifest(f, files, g.slot) == Some(m);
    assert ReadHead(files, g.slot, m) == Some(d.governance);
    assert ReadDocuments(files, g.slot, m) == Some(d);
  }

  // ---------------------------------------------------------------- one commit

  /** What loading gives once the documents of `s` are active as generation `g`. */
  ghost function After(f: Store, g: Generation, s: State): Loaded {
    match DocumentsOf(f.formats, s)
    case None => Refused
    case Some(d) => Parsed(f, g, d)
  }

  lemma {:induction false} ResolutionsSame(w: World, files: Files, base: Files, names: set<string>)
    requires Resolves(w, files) && SameBut(w.view, base, names) && SameBut(w.synced, base, names)
    ensures SameBut(files, base, names)
  {
    hide IsTemporary;
  }

  /** Writing the other slot leaves every outcome of a restart loading the active generation. */
  lemma {:induction false} WriteSlotInvisible(f: Store, w: World, g: Generation, loaded: Loaded, s: State)
    requires Quiet(w) && Holds(f, w.view, g, loaded) && g.number < U64_MAX
    ensures var (w', o) := WriteSlot(f, w, Next(g), s);
      && (o != Indeterminate ==> Quiet(w'))
      && Holds(f, w'.view, g, loaded)
      && (o == Durable && w.up ==> w'.up)
      && forall files :: Resolves(w', files) ==> Holds(f, files, g, loaded)
  {
    hide Holds;
    hide DocumentsOf;
    var (w', o) := WriteSlot(f, w, Next(g), s);
    var names := SlotNames(g.slot.Inactive());
    if DocumentsOf(f.formats, s).Some? {
      var d := DocumentsOf(f.formats, s).value;
      SlotWritesNames(f, Next(g), d);
      WriteAllEnds(w, SlotWrites(f, Next(g), d), names);
    }
    hide WriteSlot;
    hide IsTemporary;
    hide SlotNames;
    assert SameBut(w'.view, w.view, names) && SameBut(w'.synced, w.view, names);
    InactiveInvisible(f, w.view, w'.view, g, loaded);
    forall files | Resolves(w', files) ensures Holds(f, files, g, loaded) {
      ResolutionsSame(w', files, w.view, names);
      InactiveInvisible(f, w.view, files, g, loaded);
    }
  }

  lemma {:induction false} WriteSlotWrites(f: Store, w: World, g: Generation, s: State)
    requires Quiet(w) && WriteSlot(f, w, g, s).1 == Durable
    ensures DocumentsOf(f.formats, s).Some?
    ensures SlotWritten(f, WriteSlot(f, w, g, s).0.view, g, DocumentsOf(f.formats, s).value)
  {
    hide DocumentsOf;
    hide WriteAll;
    var d := DocumentsOf(f.formats, s).value;
    SlotWritesNames(f, g, d);
    hide SlotWrites;
    hide IsTemporary;
    forall i | 0 <= i < |SlotWrites(f, g, d)|
      ensures
        && Lookup(WriteSlot(f, w, g, s).0.view, SlotWrites(f, g, d)[i].0) == Some(SlotWrites(f, g, d)[i].1)
        && |SlotWrites(f, g, d)[i].1| <= FILE_LIMIT
    {
      WriteAllWrites(w, SlotWrites(f, g, d), i);
    }
  }

  /** A directory like `files` but with the selector naming `g`, whose slot is complete. */
  lemma {:induction false} SelectorSwitches(f: Store, files: Files, b: Files, g: Generation, d: Documents)
    requires f.Faithful() && SlotWritten(f, files, g, d) && g.number > 0
    requires Lookup(files, ModeFile()) == Some(f.mode.write(MODE))
    requires SameBut(b, files, {CurrentFile()}) && Lookup(b, CurrentFile()) == Some(Pointer(f, g))
    ensures Holds(f, b, g, Parsed(f, g, d))
  {
    hide IsTemporary;
    hide LoadSlot;
    hide Formats.Faithful;
    hide Parsed;
    hide SlotWritten;
    hide SlotFile;
    NamesDiffer();
    hide ModeFile;
    hide CurrentFile;
    WrittenLoads(f, files, g, d);
    SlotIndependent(f, b, files, g);
    assert f.mode.read(f.mode.write(MODE)) == Some(MODE);
    var pointer := Current(SCHEMA, g.number, g.slot);
    assert f.current.read(f.current.write(pointer)) == Some(pointer);
    assert |f.current.write(pointer)| <= MANIFEST_LIMIT;
    assert ReadExact(f.mode, b[ModeFile()]) == Some(MODE);
    assert ReadExact(f.current, b[CurrentFile()]) == Some(pointer);
  }

  lemma {:induction false} ActiveMode(f: Store, files: Files, g: Generation)
    requires LoadCurrent(f, files) == Selects(g)
    ensures Lookup(files, ModeFile()) == Some(f.mode.write(MODE)) && g.number > 0
  {
    hide ModeFile;
    hide CurrentFile;
  }

  lemma {:induction false} SelectorKept(f: Store, a: Files, b: Files, g: Generation, loaded: Loaded)
    requires Holds(f, a, g, loaded) && SameBut(b, a, {CurrentFile()})
    requires Lookup(a, CurrentFile()) == Lookup(b, CurrentFile())
    ensures Holds(f, b, g, loaded)
  {
    hide IsTemporary;
    hide Holds;
    hide CurrentFile;
    InactiveInvisible(f, a, b, g, loaded);
  }

  /** With the selector in doubt, a restart finds the old or the complete new generation. */
  lemma {:induction false} SelectorInDoubt(
      f: Store, w: World, base: Files, files: Files, g: Generation, loaded: Loaded, d: Documents)
    requires f.Faithful() && Holds(f, base, g, loaded) && g.number < U64_MAX
    requires SlotWritten(f, base, Next(g), d)
    requires w.view == base[CurrentFile() := Pointer(f, Next(g))]
    requires SameBut(w.synced, base, {CurrentFile()})
    requires Lookup(w.synced, CurrentFile()) in {Lookup(base, CurrentFile()), Lookup(w.view, CurrentFile())}
    requires Resolves(w, files)
    ensures Holds(f, files, g, loaded) || Holds(f, files, Next(g), Parsed(f, Next(g), d))
  {
    ActiveMode(f, base, g);
    hide Holds;
    hide IsTemporary;
    hide ModeFile;
    hide CurrentFile;
    hide SlotWritten;
    hide Parsed;
    hide Pointer;
    hide Store.Faithful;
    assert SameBut(files, base, {CurrentFile()});
    if Lookup(files, CurrentFile()) == Some(Pointer(f, Next(g))) {
      SelectorSwitches(f, base, files, Next(g), d);
    } else {
      SelectorKept(f, base, files, g, loaded);
    }
  }

  ghost predicate EitherAfterRestart(
      f: Store, w: World, g: Generation, loaded: Loaded, next: Generation, after: Loaded)
  {
    forall files :: Resolves(w, files) ==> Holds(f, files, g, loaded) || Holds(f, files, next, after)
  }

  ghost predicate SameAfterRestart(f: Store, w: World, g: Generation, loaded: Loaded) {
    forall files :: Resolves(w, files) ==> Holds(f, files, g, loaded)
  }

  lemma {:induction false} QuietRestarts(f: Store, w: World, g: Generation, loaded: Loaded)
    requires Quiet(w) && Holds(f, w.view, g, loaded)
    ensures SameAfterRestart(f, w, g, loaded)
  {
    hide Holds;
    hide IsTemporary;
    forall files | Resolves(w, files) ensures Holds(f, files, g, loaded) {
      InactiveInvisible(f, w.view, files, g, loaded);
    }
  }

  lemma {:induction false} SelectorWritten(w: World, w': World, pointer: seq<Byte>)
    requires Quiet(w) && w'.view == w.view[CurrentFile() := pointer]
    requires w'.synced == w'.view || w'.synced == w.synced
    requires !IsTemporary(CurrentFile())
    ensures SameBut(w'.synced, w.view, {CurrentFile()})
    ensures Lookup(w'.synced, CurrentFile()) in {Lookup(w.view, CurrentFile()), Lookup(w'.view, CurrentFile())}
  {
    hide IsTemporary;
    hide CurrentFile;
  }

  /** How the selector write that ends a commit can end. */
  lemma {:induction false} ActivationEnds(f: Store, w: World, g: Generation, loaded: Loaded, d: Documents)
    requires f.Faithful() && Quiet(w) && Holds(f, w.view, g, loaded) && g.number < U64_MAX
    requires SlotWritten(f, w.view, Next(g), d)
    ensures var (w', o) := Replace(w, CurrentFile(), Pointer(f, Next(g)), false);
      && (o != Indeterminate ==> Quiet(w'))
      && (o == Durable ==> w'.up && Holds(f, w'.view, Next(g), Parsed(f, Next(g), d)))
      && (o == NotCommitted ==> Holds(f, w'.view, g, loaded))
      && EitherAfterRestart(f, w', g, loaded, Next(g), Parsed(f, Next(g), d))
  {
    var (w', o) := Replace(w, CurrentFile(), Pointer(f, Next(g)), false);
    NamesDiffer();
    ReplaceEnds(w, CurrentFile(), Pointer(f, Next(g)), false);
    ActiveMode(f, w.view, g);
    hide Holds;
    hide IsTemporary;
    hide Replace;
    hide ModeFile;
    hide CurrentFile;
    hide SlotFile;
    hide SlotWritten;
    hide Parsed;
    hide Pointer;
    hide Store.Faithful;
    if o == NotCommitted {
      InactiveInvisible(f, w.view, w'.view, g, loaded);
      QuietRestarts(f, w', g, loaded);
    } else {
      SelectorWritten(w, w', Pointer(f, Next(g)));
      if o == Durable {
        assert SameBut(w'.view, w.view, {CurrentFile()});
        SelectorSwitches(f, w.view, w'.view, Next(g), d);
      }
      hide SameBut;
      hide Quiet;
      hide Lookup;
      hide Resolves;
      forall files | Resolves(w', files)
        ensures Holds(f, files, g, loaded) || Holds(f, files, Next(g), Parsed(f, Next(g), d))
      {
        SelectorInDoubt(f, w', w.view, files, g, loaded, d);
      }
    }
  }

  /** Every way one commit can end, from a settled store. */
  lemma {:induction false} CommitEnds(f: Store, w: World, g: Generation, loaded: Loaded, current: U64, s: State)
    requires f.Faithful() && Quiet(w) && Holds(f, w.view, g, loaded)
    ensures var (w', t) := Commit(f, w, current, s);
      && (t.Activated? ==>
            && g.number == current < U64_MAX
            && t.generation == Next(g)
            && w'.up && Quiet(w') && Holds(f, w'.view, Next(g), After(f, Next(g), s)))
      && (t.Rejected? ==> Quiet(w') && Holds(f, w'.view, g, loaded))
      && (t.Unsure? ==>
            && g.number == current < U64_MAX
            && EitherAfterRestart(f, w', g, loaded, Next(g), After(f, Next(g), s)))
  {
    hide IsTemporary;
    hide Quiet;
    hide Parsed;
    hide Store.Faithful;
    hide DocumentsOf;
    var (w', t) := Commit(f, w, current, s);
    ReadingQuiet(w);
    assert LoadCurrent(f, w.view) == Selects(g);
    if w.up && NextFault(w).Works? && g.number == current && g.number != U64_MAX {
      hide LoadCurrent;
      var (w1, o) := WriteSlot(f, Reading(w), Next(g), s);
      WriteSlotInvisible(f, Reading(w), g, loaded, s);
      if o == Durable {
        WriteSlotWrites(f, Reading(w), Next(g), s);
        ActivationEnds(f, w1, g, loaded, DocumentsOf(f.formats, s).value);
      } else if o == Indeterminate {
        assert forall files :: Resolves(w1, files) ==> Holds(f, files, g, loaded);
      }
    }
  }

  lemma {:induction false} ReadingQuiet(w: World)
    requires Quiet(w)
    ensures Quiet(Reading(w)) && Reading(w).view == w.view
  {
    hide IsTemporary;
  }
}
