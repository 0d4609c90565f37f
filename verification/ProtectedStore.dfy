/** The store's operations as they change the directory, file by file. */
module ProtectedStore {
  import opened Basics
  import opened LocalFs
  import opened ProtectedDocuments
  import opened ProtectedState

  class PrivateDirectory {
    var world: World

    constructor (files: Files, faults: seq<Fault>)
      ensures world == Started(files, faults)
    {
      world := Started(files, faults);
    }

    method ReplaceFile(name: string, data: seq<Byte>, createOnly: bool) returns (outcome: Outcome)
      modifies this
      ensures (world, outcome) == Replace(old(world), name, data, createOnly)
    {
      if !world.up || |data| > FILE_LIMIT || (createOnly && name in world.view) {
        return NotCommitted;
      }
      var fault := NextFault(world);
      world := Drawn(world);
      match fault
      case Works =>
        world := world.(view := world.view[name := data]);
        world := world.(synced := world.view);
        return Durable;
      case Fails(late, halt, suffix, litter) =>
        world := world.(up := !halt);
        if late {
          world := world.(view := world.view[name := data]);
          return Indeterminate;
        }
        world := world.(view := Litter(world.view, suffix, litter));
        return NotCommitted;
    }

    /** One pass over the files being read, which may fail. */
    method ReadFiles() returns (ok: bool)
      modifies this
      ensures ok == (old(world).up && NextFault(old(world)).Works?)
      ensures world == if old(world).up then Reading(old(world)) else old(world)
    {
      if !world.up {
        return false;
      }
      ok := NextFault(world).Works?;
      world := Reading(world);
    }
  }

  method WriteSlotFiles(f: Store, den: PrivateDirectory, g: Generation, s: State) returns (outcome: Outcome)
    modifies den
    ensures (den.world, outcome) == WriteSlot(f, old(den.world), g, s)
  {
    hide DocumentsOf;
    hide ManifestOf;
    hide SlotFile;
    hide Replace;
    var contents := DocumentsOf(f.formats, s);
    if contents.None? {
      return NotCommitted;
    }
    var writes := SlotWrites(f, g, contents.value);
    hide SlotWrites;
    var i := 0;
    while i < |writes|
      invariant i <= |writes|
      invariant WriteAll(den.world, writes[i..]) == WriteAll(old(den.world), writes)
    {
      var name, data := writes[i].0, writes[i].1;
      outcome := den.ReplaceFile(name, data, false);
      assert writes[i..][1..] == writes[i + 1..];
      if outcome != Durable {
        return;
      }
      i := i + 1;
    }
    return Durable;
  }

  method CommitState(f: Store, den: PrivateDirectory, current: U64, s: State) returns (t: Transaction)
    modifies den
    ensures (den.world, t) == Commit(f, old(den.world), current, s)
  {
    hide WriteSlot;
    hide Replace;
    hide LoadCurrent;
    hide CurrentFile;
    var observed := LoadCurrent(f, den.world.view);
    var readable := den.ReadFiles();
    if !readable || !observed.Selects? || observed.generation.number != current
       || observed.generation.number == U64_MAX {
      return Rejected;
    }
    var next := Next(observed.generation);
    var outcome := WriteSlotFiles(f, den, next, s);
    if outcome != Durable {
      return Ended(outcome, next);
    }
    outcome := den.ReplaceFile(CurrentFile(), Pointer(f, next), false);
    return Ended(outcome, next);
  }

  /** Create generation one from the flat files; the marker goes in just before the selector. */
  method MigrateState(f: Store, den: PrivateDirectory) returns (t: Transaction)
    modifies den
    ensures (den.world, t) == Migrate(f, old(den.world))
  {
    hide WriteSlot;
    hide Replace;
    hide LoadCurrent;
    hide LegacyState;
    hide CurrentFile;
    hide ModeFile;
    var files := den.world.view;
    var readable := den.ReadFiles();
    if !readable {
      return Rejected;
    }
    match LoadCurrent(f, files) {
      case Selects(g) => return Activated(g);
      case Broken => return Rejected;
      case Nothing =>
    }
    var state := LegacyState(f, files);
    if state.None? {
      return Rejected;
    }
    var outcome := WriteSlotFiles(f, den, FIRST, state.value);
    if outcome != Durable {
      return Ended(outcome, FIRST);
    }
    outcome := den.ReplaceFile(ModeFile(), f.mode.write(MODE), true);
    if outcome != Durable {
      return Ended(outcome, FIRST);
    }
    outcome := den.ReplaceFile(CurrentFile(), Pointer(f, FIRST), true);
    return Ended(outcome, FIRST);
  }
}
