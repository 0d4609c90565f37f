/** The private directory: what a running process sees, what has reached the disk, and every way an
    operation can fail or be cut short. */
module LocalFs {
  import opened Basics

  /** The largest file `Replace` writes. */
  const FILE_LIMIT := 0x10_0000

  type Files = map<string, seq<Byte>>

  function Lookup(files: Files, name: string): Option<seq<Byte>> {
    if name in files then Some(files[name]) else None
  }

  /** What goes wrong with one operation. `late` places the failure after the visible change, `halt`
      ends the process there, and `litter` is what a half-done write leaves behind. */
  datatype Fault =
    | Works
    | Fails(late: bool, halt: bool, suffix: string, litter: seq<Byte>)

  /** `view` is what the process reads, `synced` the directory as of its last sync. */
  datatype World = World(view: Files, synced: Files, faults: seq<Fault>, up: bool)

  datatype Outcome = Durable | NotCommitted | Indeterminate

  function NextFault(w: World): Fault {
    if w.faults == [] then Works else w.faults[0]
  }

  /** The world once the next fault has been drawn. An exhausted list means no more failures. */
  function Drawn(w: World): World {
    w.(faults := if w.faults == [] then [] else w.faults[1..])
  }

  function TemporaryName(suffix: string): string {
    ".state-" + suffix + ".tmp"
  }

  predicate IsTemporary(name: string) {
    |name| >= 7 && name[..7] == ".state-"
  }

  /** A temporary never replaces an existing entry. */
  function Litter(files: Files, suffix: string, data: seq<Byte>): Files {
    if TemporaryName(suffix) in files then files else files[TemporaryName(suffix) := data]
  }

  /** Writes a temporary, renames it over `name` and syncs the directory. */
  function Replace(w: World, name: string, data: seq<Byte>, createOnly: bool): (World, Outcome) {
    if !w.up || |data| > FILE_LIMIT || (createOnly && name in w.view) then (w, NotCommitted)
    else match NextFault(w)
      case Works =>
        (Drawn(w).(view := w.view[name := data], synced := w.view[name := data]), Durable)
      case Fails(late, halt, suffix, litter) =>
        if late then (Drawn(w).(view := w.view[name := data], up := !halt), Indeterminate)
        else (Drawn(w).(view := Litter(w.view, suffix, litter), up := !halt), NotCommitted)
  }

  /** What the directory may hold after a restart: name by name, the visible or the synced entry. */
  ghost predicate Resolves(w: World, files: Files) {
    forall name :: Lookup(files, name) == Lookup(w.view, name) || Lookup(files, name) == Lookup(w.synced, name)
  }

  function Started(files: Files, faults: seq<Fault>): World {
    World(files, files, faults, true)
  }

  /** Visible and synced directory agree, temporaries aside. */
  ghost predicate Quiet(w: World) {
    forall name :: !IsTemporary(name) ==> Lookup(w.view, name) == Lookup(w.synced, name)
  }

  /** Two directories agree on everything but temporaries and the names in `except`. */
  ghost predicate SameBut(a: Files, b: Files, except: set<string>) {
    forall name :: !IsTemporary(name) && name !in except ==> Lookup(a, name) == Lookup(b, name)
  }

  lemma {:induction false} TemporariesMarked(suffix: string)
    ensures IsTemporary(TemporaryName(suffix))
  {
    assert TemporaryName(suffix)[..7] == ".state-";
  }

  /** Every way a replacement of `name` can end. */
  lemma {:induction false} ReplaceEnds(w: World, name: string, data: seq<Byte>, createOnly: bool)
    requires !IsTemporary(name) && Quiet(w)
    ensures var (w', o) := Replace(w, name, data, createOnly);
      && (o == Durable ==>
            && w.up && w'.up && w'.view == w'.synced == w.view[name := data]
            && |data| <= FILE_LIMIT)
      && (o == NotCommitted ==> Quiet(w') && SameBut(w'.view, w.view, {}) && w'.synced == w.synced)
      && (o == Indeterminate ==>
            && w'.view == w.view[name := data] && w'.synced == w.synced
            && |data| <= FILE_LIMIT)
      && (createOnly && name in w.view ==> w' == w && o == NotCommitted)
      && (w.up && NextFault(w).Works? && |data| <= FILE_LIMIT && !(createOnly && name in w.view) ==> o == Durable)
  {
    if NextFault(w).Fails? {
      TemporariesMarked(NextFault(w).suffix);
    }
  }
}
