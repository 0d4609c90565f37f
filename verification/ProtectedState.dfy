/** The two-slot store: generations of documents, the manifest over them, and the selector that
    activates one. */
module ProtectedState {
  import opened Basics
  import opened LocalFs
  import opened ProtectedDocuments
  import Statements
  import GD = GovernanceDocument

  const SCHEMA := 1
  const SCHEMA_GOVERNANCE := 2
  const MANIFEST_LIMIT := 4096
  const DOCUMENT_LIMIT := 0x10_0000

  datatype Slot = A | B {
    function Inactive(): Slot {
      if A? then B else A
    }
  }

  datatype Generation = Generation(number: U64, slot: Slot)

  datatype Doc = Pack | Silver | Policy | Fangs | Active | Head | ManifestDoc

  datatype Mode = Mode(schema: nat, mode: string)
  datatype Current = Current(schema: nat, generation: U64, slot: Slot)

  datatype Commitments = Commitments(
    pack: string, silver: string, policy: string, fangs: string, active: string, governance: Option<string>)

  datatype Manifest = Manifest(schema: nat, generation: U64, documents: Commitments, seal: string)

  datatype Store = Store(
    formats: Formats,
    mode: Codec<Mode>,
    current: Codec<Current>,
    manifest: Codec<Manifest>,
    hash: seq<Byte> -> Bytes32)
  {
    /** Formats invert, and the fixed-size documents fit the limit they are read with. */
    ghost predicate Faithful() {
      && formats.Faithful()
      && mode.Faithful()
      && current.Faithful()
      && manifest.Faithful()
      && |mode.write(MODE)| <= MANIFEST_LIMIT
      && (forall g: U64, slot :: |current.write(Current(SCHEMA, g, slot))| <= MANIFEST_LIMIT)
      && (forall m: Manifest :: Digests(m) ==> |manifest.write(m)| <= MANIFEST_LIMIT)
    }
  }

  const MODE := Mode(SCHEMA, "manifest")

  /** Every commitment is the text of a 32-byte digest. */
  predicate Digests(m: Manifest) {
    && (m.schema == SCHEMA || m.schema == SCHEMA_GOVERNANCE)
    && |m.documents.pack| == |m.documents.silver| == |m.documents.policy| == 64
    && |m.documents.fangs| == |m.documents.active| == |m.seal| == 64
    && (m.documents.governance.Some? ==> |m.documents.governance.value| == 64)
  }

  // ---------------------------------------------------------------- names

  function DocName(doc: Doc): string {
    match doc
    case Pack => "pack"
    case Silver => "silver"
    case Policy => "target-policy"
    case Fangs => "fangs"
    case Active => "active-fangs"
    case Head => "governance"
    case ManifestDoc => "manifest"
  }

  function SlotFile(slot: Slot, doc: Doc): string {
    "security_state_" + (if slot.A? then "a" else "b") + "_" + DocName(doc) + ".json"
  }

  function ModeFile(): string {
    "security_state_manifest_mode.json"
  }

  function CurrentFile(): string {
    "security_state_current.json"
  }

  lemma {:induction false} SlotFileMarks(slot: Slot, doc: Doc)
    ensures |SlotFile(slot, doc)| > 17
    ensures SlotFile(slot, doc)[0] == 's'
    ensures SlotFile(slot, doc)[15] == if slot.A? then 'a' else 'b'
    ensures SlotFile(slot, doc)[17] ==
      match doc
      case Pack => 'p'
      case Silver => 's'
      case Policy => 't'
      case Fangs => 'f'
      case Active => 'a'
      case Head => 'g'
      case ManifestDoc => 'm'
  {
    var prefix := "security_state_" + (if slot.A? then "a" else "b") + "_";
    assert |prefix| == 17 && prefix[0] == 's';
    assert SlotFile(slot, doc) == prefix + (DocName(doc) + ".json");
    assert SlotFile(slot, doc)[15] == prefix[15];
    assert SlotFile(slot, doc)[17] == DocName(doc)[0];
  }

  /** No two of the store's files share a name, and none looks like a temporary. */
  lemma {:induction false} NamesDiffer()
    ensures forall s, d, s', d' :: SlotFile(s, d) == SlotFile(s', d') ==> s == s' && d == d'
    ensures forall s, d :: SlotFile(s, d) != ModeFile() && SlotFile(s, d) != CurrentFile()
    ensures ModeFile() != CurrentFile()
    ensures forall s, d :: !IsTemporary(SlotFile(s, d))
    ensures !IsTemporary(ModeFile()) && !IsTemporary(CurrentFile())
  {
    assert ModeFile()[15] == 'm' && CurrentFile()[15] == 'c';
    assert ModeFile()[0] == 's' && CurrentFile()[0] == 's';
    forall name: string | |name| >= 7 && name[0] == 's' ensures !IsTemporary(name) {
      assert name[..7][0] != ".state-"[0];
    }
    forall s, d
      ensures SlotFile(s, d) != ModeFile() && SlotFile(s, d) != CurrentFile() && !IsTemporary(SlotFile(s, d))
    {
      SlotFileMarks(s, d);
    }
    forall s, d, s', d' | SlotFile(s, d) == SlotFile(s', d') ensures s == s' && d == d' {
      SlotFileMarks(s, d);
      SlotFileMarks(s', d');
    }
  }

  // ---------------------------------------------------------------- the manifest

  function DocumentInput(document: string, contents: seq<Byte>): seq<Byte> {
    Ascii("werewolfproxy/state-manifest/v1/") + Ascii(document) + Ascii("\0schema\0") + [SCHEMA] + [0] + contents
  }

  function Commitment(f: Store, document: string, contents: seq<Byte>): (r: string)
    ensures |r| == 64
  {
    GD.Hex(f.hash(DocumentInput(document, contents)))
  }

  /** The digests under the state commitment, in their fixed order. */
  function SealInput(f: Store, schema: nat, number: U64, d: Documents): seq<Byte>
    requires schema < 256
  {
    Ascii("werewolfproxy/state-manifest/v1/state\0schema\0") + [schema]
    + Ascii("\0generation\0") + Statements.BigEndian(number, 8)
    + Ascii("pack\0") + f.hash(DocumentInput("pack", d.pack))
    + Ascii("silver\0") + f.hash(DocumentInput("silver", d.silver))
    + Ascii("target-policy\0") + f.hash(DocumentInput("target-policy", d.policy))
    + Ascii("fangs\0") + f.hash(DocumentInput("fangs", d.fangs))
    + Ascii("active-fangs\0") + f.hash(DocumentInput("active-fangs", d.active))
    + (if d.governance.None? then []
       else Ascii("governance\0") + f.hash(DocumentInput("governance", d.governance.value)))
  }

  function ManifestOf(f: Store, number: U64, d: Documents): (m: Manifest)
    ensures Digests(m) && m.generation == number
    ensures m.documents.governance.Some? <==> d.governance.Some?
  {
    var schema := if d.governance.Some? then SCHEMA_GOVERNANCE else SCHEMA;
    Manifest(
      schema,
      number,
      Commitments(
        Commitment(f, "pack", d.pack),
        Commitment(f, "silver", d.silver),
        Commitment(f, "target-policy", d.policy),
        Commitment(f, "fangs", d.fangs),
        Commitment(f, "active-fangs", d.active),
        if d.governance.Some? then Some(Commitment(f, "governance", d.governance.value)) else None),
      GD.Hex(f.hash(SealInput(f, schema, number, d))))
  }

  // ---------------------------------------------------------------- reading

  predicate Fits(files: Files, name: string, limit: nat) {
    name in files ==> |files[name]| <= limit
  }

  function ReadExact<T(!new)>(json: Codec<T>, bytes: seq<Byte>): Option<T> {
    var value :- json.read(bytes);
    if json.write(value) == bytes then Some(value) else None
  }

  datatype Selected = Nothing | Selects(generation: Generation) | Broken

  predicate NoSlotFiles(files: Files) {
    forall slot: Slot, doc: Doc :: SlotFile(slot, doc) !in files
  }

  function LoadCurrent(f: Store, files: Files): Selected {
    if !Fits(files, ModeFile(), MANIFEST_LIMIT) || !Fits(files, CurrentFile(), MANIFEST_LIMIT) then Broken
    else if ModeFile() !in files && CurrentFile() !in files then
      if NoSlotFiles(files) then Nothing else Broken
    else if ModeFile() in files && CurrentFile() in files then
      var mode := ReadExact(f.mode, files[ModeFile()]);
      var current := ReadExact(f.current, files[CurrentFile()]);
      if mode != Some(MODE) || current.None? || current.value.schema != SCHEMA || current.value.generation == 0
      then Broken
      else Selects(Generation(current.value.generation, current.value.slot))
    else Broken
  }

  function Contents(files: Files, slot: Slot, doc: Doc, limit: nat): Option<seq<Byte>> {
    if Fits(files, SlotFile(slot, doc), limit) then Lookup(files, SlotFile(slot, doc)) else None
  }

  function ReadManifest(f: Store, files: Files, slot: Slot): Option<Manifest> {
    var bytes :- Contents(files, slot, ManifestDoc, MANIFEST_LIMIT);
    ReadExact(f.manifest, bytes)
  }

  /** The governance document is read only when the manifest commits to one. */
  function ReadHead(files: Files, slot: Slot, m: Manifest): Option<Option<seq<Byte>>> {
    if m.documents.governance.None? then Some(None)
    else
      var bytes :- Contents(files, slot, Head, DOCUMENT_LIMIT);
      Some(Some(bytes))
  }

  function ReadDocuments(files: Files, slot: Slot, m: Manifest): Option<Documents> {
    var pack :- Contents(files, slot, Pack, DOCUMENT_LIMIT);
    var silver :- Contents(files, slot, Silver, DOCUMENT_LIMIT);
    var policy :- Contents(files, slot, Policy, DOCUMENT_LIMIT);
    var fangs :- Contents(files, slot, Fangs, DOCUMENT_LIMIT);
    var active :- Contents(files, slot, Active, DOCUMENT_LIMIT);
    var head :- ReadHead(files, slot, m);
    Some(Documents(pack, silver, policy, fangs, active, head))
  }

  datatype Loaded = Legacy | Loaded(generation: Generation, state: State) | Refused

  function Parsed(f: Store, g: Generation, d: Documents): Loaded {
    match ParseDocuments(f.formats, d)
    case None => Refused
    case Some(state) => Loaded(g, state)
  }

  function LoadSlot(f: Store, files: Files, g: Generation): Loaded {
    match ReadManifest(f, files, g.slot)
    case None => Refused
    case Some(m) =>
      match ReadDocuments(files, g.slot, m)
      case None => Refused
      case Some(d) => if m == ManifestOf(f, g.number, d) then Parsed(f, g, d) else Refused
  }

  function Load(f: Store, files: Files): Loaded {
    match LoadCurrent(f, files)
    case Nothing => Legacy
    case Broken => Refused
    case Selects(g) => LoadSlot(f, files, g)
  }

  // ---------------------------------------------------------------- writing

  type Writes = seq<(string, seq<Byte>)>

  function WriteAll(w: World, writes: Writes): (World, Outcome)
    decreases |writes|
  {
    if writes == [] then (w, Durable)
    else
      var (w', outcome) := Replace(w, writes[0].0, writes[0].1, false);
      if outcome == Durable then WriteAll(w', writes[1..]) else (w', outcome)
  }

  /** A slot's files in writing order: the documents, then the manifest over them. */
  function SlotWrites(f: Store, g: Generation, d: Documents): Writes {
    [(SlotFile(g.slot, Pack), d.pack),
     (SlotFile(g.slot, Silver), d.silver),
     (SlotFile(g.slot, Policy), d.policy),
     (SlotFile(g.slot, Fangs), d.fangs),
     (SlotFile(g.slot, Active), d.active)]
    + (if d.governance.Some? then [(SlotFile(g.slot, Head), d.governance.value)] else [])
    + [(SlotFile(g.slot, ManifestDoc), f.manifest.write(ManifestOf(f, g.number, d)))]
  }

  function WriteSlot(f: Store, w: World, g: Generation, s: State): (World, Outcome) {
    match DocumentsOf(f.formats, s)
    case None => (w, NotCommitted)
    case Some(d) => WriteAll(w, SlotWrites(f, g, d))
  }

  datatype Transaction = Activated(generation: Generation) | Rejected | Unsure

  function Ended(outcome: Outcome, g: Generation): Transaction {
    match outcome
    case Durable => Activated(g)
    case NotCommitted => Rejected
    case Indeterminate => Unsure
  }

  function Pointer(f: Store, g: Generation): seq<Byte> {
    f.current.write(Current(SCHEMA, g.number, g.slot))
  }

  function Next(g: Generation): Generation
    requires g.number < U64_MAX
  {
    Generation(g.number + 1, g.slot.Inactive())
  }

  /** Reading may fail too; it then changes nothing but may end the process. */
  function Reading(w: World): World {
    if NextFault(w).Fails? then Drawn(w).(up := !NextFault(w).halt) else Drawn(w)
  }

  function Commit(f: Store, w: World, current: U64, s: State): (World, Transaction) {
    if !w.up then (w, Rejected)
    else if NextFault(w).Fails? then (Reading(w), Rejected)
    else match LoadCurrent(f, w.view)
      case Selects(g) =>
        if g.number != current || g.number == U64_MAX then (Reading(w), Rejected)
        else
          var (w', outcome) := WriteSlot(f, Reading(w), Next(g), s);
          if outcome != Durable then (w', Ended(outcome, Next(g)))
          else
            var (w'', activation) := Replace(w', CurrentFile(), Pointer(f, Next(g)), false);
            (w'', Ended(activation, Next(g)))
      case _ => (Reading(w), Rejected)
  }

  // ---------------------------------------------------------------- migration

  const FIRST := Generation(1, A)

  function LegacyBytes(files: Files, name: string, limit: nat): Option<Option<seq<Byte>>> {
    if Fits(files, name, limit) then Some(Lookup(files, name)) else None
  }

  function LegacySilver(f: Store, files: Files): Option<bool> {
    match LegacyBytes(files, "silver.json", MANIFEST_LIMIT)
    case None => None
    case Some(None) => Some(true)
    case Some(Some(bytes)) =>
      var value :- f.formats.silver.read(bytes);
      if value.version != 1 then None
      else if value.mode == "locked" then Some(true)
      else if value.mode == "open" then Some(false)
      else None
  }

  function LegacyPack(f: Store, files: Files): Option<seq<PeerRecord>> {
    match LegacyBytes(files, "pack.json", DOCUMENT_LIMIT)
    case None => None
    case Some(None) => Some([])
    case Some(Some(bytes)) =>
      var peers :- f.formats.pack.read(bytes);
      if ValidPack(f.formats, peers) then Some(peers) else None
  }

  function LegacyPolicy(f: Store, files: Files): Option<TP.Policy> {
    match LegacyBytes(files, "target_policy.json", DOCUMENT_LIMIT)
    case None => None
    case Some(None) => Some(TP.Deny)
    case Some(Some(bytes)) =>
      var canonical :- TP.Canonicalize(f.formats.policy, bytes);
      TP.ParseCanonical(f.formats.policy, canonical)
  }

  function LegacyProfiles(f: Store, files: Files): Option<seq<FangProfile>> {
    match LegacyBytes(files, "fangs.json", DOCUMENT_LIMIT)
    case None => None
    case Some(None) => Some([])
    case Some(Some(bytes)) =>
      var profiles :- f.formats.profiles.read(bytes);
      if ValidProfiles(f.formats, profiles) then Some(profiles) else None
  }

  function LegacyActive(f: Store, files: Files, profiles: seq<FangProfile>): Option<seq<string>> {
    match LegacyBytes(files, "active_fangs.json", DOCUMENT_LIMIT)
    case None => None
    case Some(None) => Some([])
    case Some(Some(bytes)) =>
      var active :- f.formats.active.read(bytes);
      if ValidActive(active, profiles) then Some(active) else None
  }

  /** The flat files of a Den from before generations. */
  function LegacyState(f: Store, files: Files): Option<State> {
    var silver :- LegacySilver(f, files);
    var peers :- LegacyPack(f, files);
    var policy :- LegacyPolicy(f, files);
    var profiles :- LegacyProfiles(f, files);
    var active :- LegacyActive(f, files, profiles);
    Some(State(silver, peers, policy, profiles, active, None))
  }

  /** Slot, mode marker, selector, in that order. */
  function Migrate(f: Store, w: World): (World, Transaction) {
    if !w.up then (w, Rejected)
    else if NextFault(w).Fails? then (Reading(w), Rejected)
    else match LoadCurrent(f, w.view)
      case Selects(g) => (Reading(w), Activated(g))
      case Broken => (Reading(w), Rejected)
      case Nothing =>
        match LegacyState(f, w.view)
        case None => (Reading(w), Rejected)
        case Some(s) =>
          var (w1, slot) := WriteSlot(f, Reading(w), FIRST, s);
          if slot != Durable then (w1, Ended(slot, FIRST))
          else
            var (w2, mode) := Replace(w1, ModeFile(), f.mode.write(MODE), true);
            if mode != Durable then (w2, Ended(mode, FIRST))
            else
              var (w3, current) := Replace(w2, CurrentFile(), Pointer(f, FIRST), true);
              (w3, Ended(current, FIRST))
  }
}
