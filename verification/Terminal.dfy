/** Death and retirement on the node: mark the Den, destroy it, verify, complete, and resume at any
    start. Every directory operation may fail or be the last before a crash. */
module Terminal {
  import opened Basics
  import opened LocalFs
  import opened Tombstones
  import Governance
  import ProtectedDocuments
  import ProtectedState
  import Statements

  datatype Env = Env(
    order: Files -> seq<string>,
    tomb: Formats,
    store: ProtectedState.Store,
    parses: (Extra, seq<Byte>) -> bool,
    software: string)
  {
    /** A listing names every entry, and nothing else. */
    ghost predicate Lists() {
      forall files: Files, name :: name in order(files) <==> name in files
    }

    ghost predicate Faithful() {
      Lists() && tomb.Faithful() && CompleteIsShorter(tomb)
    }
  }

  /** The files beside the protected state that a start reads before it looks at the head. */
  datatype Extra = Services | Published | Routes | Advertise | Cache | AutoSync | Pelt

  function ExtraName(x: Extra): string {
    match x
    case Services => "services.json"
    case Published => "published.json"
    case Routes => "routes.json"
    case Advertise => "advertise.json"
    case Cache => "contacts.json"
    case AutoSync => "auto_sync.json"
    case Pelt => "pelt.json"
  }

  function ExtraLimit(x: Extra): nat {
    match x
    case Advertise => 4096
    case AutoSync => 64
    case Pelt => 4096
    case _ => 1024 * 1024
  }

  function TombstoneFile(): string {
    "tombstone.json"
  }

  function LockFile(): string {
    ".den.lock"
  }

  function PeltFile(): string {
    "pelt.json"
  }

  predicate IsSecurityState(name: string) {
    |name| >= 15 && name[..15] == "security_state_"
  }

  predicate Kept(name: string) {
    name == TombstoneFile() || name == LockFile()
  }

  predicate Expendable(name: string) {
    !Kept(name)
  }

  lemma {:induction false} DenNames()
    ensures TombstoneFile() != LockFile() && TombstoneFile() != PeltFile() && LockFile() != PeltFile()
    ensures !IsTemporary(TombstoneFile()) && !IsTemporary(LockFile())
    ensures !IsSecurityState(TombstoneFile()) && !IsSecurityState(LockFile())
  {
    assert TombstoneFile()[0] == 't' && LockFile()[0] == '.' && PeltFile()[0] == 'p';
    assert |LockFile()| == 9 && LockFile()[..7] == ".den.lo";
    assert ".den.lo"[1] != ".state-"[1];
    assert TombstoneFile()[..7][0] != ".state-"[0];
  }

  // ---------------------------------------------------------------- directory operations

  /** The world after an operation that failed without effect. */
  function Failed(w: World): World {
    Drawn(w).(up := !(NextFault(w).Fails? && NextFault(w).halt))
  }

  predicate Responds(w: World) {
    w.up && NextFault(w).Works?
  }

  /** A file's bytes change in place, so also under its synced name. */
  function Overwritten(files: Files, name: string, data: seq<Byte>): Files {
    if name in files then files[name := data] else files
  }

  /** Overwrites with zeros, then unlinks; the unlink is not yet synced. A failure may leave the file
      partly overwritten. */
  function Destroy(w: World, name: string): (World, bool) {
    if !w.up then (w, false)
    else match NextFault(w)
      case Works =>
        (Drawn(w).(view := w.view - {name},
                   synced := if name in w.view then Overwritten(w.synced, name, Zeros(|w.view[name]|)) else w.synced),
         true)
      case Fails(late, halt, suffix, litter) =>
        (if late && name in w.view
         then Failed(w).(view := w.view[name := litter], synced := Overwritten(w.synced, name, litter))
         else Failed(w),
         false)
  }

  function DestroyAll(w: World, names: seq<string>): (World, bool)
    decreases |names|
  {
    if names == [] then (w, true)
    else
      var (w', ok) := Destroy(w, names[0]);
      if ok then DestroyAll(w', names[1..]) else (w', false)
  }

  function Entries(env: Env, w: World): (World, Option<seq<string>>) {
    if Responds(w) then (Drawn(w), Some(env.order(w.view)))
    else (if w.up then Failed(w) else w, None)
  }

  predicate Inert(files: Files) {
    LockFile() in files ==> files[LockFile()] == []
  }

  function LockIsInert(w: World): (World, Option<bool>) {
    if Responds(w) then (Drawn(w), Some(Inert(w.view)))
    else (if w.up then Failed(w) else w, None)
  }

  function ScrubLock(w: World): (World, bool) {
    if !w.up then (w, false)
    else if LockFile() !in w.view then (Failed(w), false)
    else match NextFault(w)
      case Works =>
        (Drawn(w).(view := w.view[LockFile() := []], synced := Overwritten(w.synced, LockFile(), [])), true)
      case Fails(late, halt, suffix, litter) =>
        (if late
         then Failed(w).(view := w.view[LockFile() := litter], synced := Overwritten(w.synced, LockFile(), litter))
         else Failed(w),
         false)
  }

  function Sync(w: World): (World, bool) {
    if Responds(w) then (Drawn(w).(synced := w.view), true)
    else (if w.up then Failed(w) else w, false)
  }

  // ---------------------------------------------------------------- destruction

  function Select(names: seq<string>, p: string -> bool): (r: seq<string>)
    ensures forall n :: n in r <==> n in names && p(n)
  {
    if names == [] then []
    else if p(names[0]) then [names[0]] + Select(names[1..], p)
    else Select(names[1..], p)
  }

  /** The lock last: emptied in place unless it is already inert; then the directory is synced. */
  function SettleLock(w: World): (World, bool) {
    match LockIsInert(w)
    case (w', None) => (w', false)
    case (w', Some(inert)) =>
      var (w'', ok) := if inert then (w', true) else ScrubLock(w');
      if ok then Sync(w'') else (w'', false)
  }

  function DestroyListed(env: Env, w: World, p: string -> bool): (World, bool) {
    match Entries(env, w)
    case (w', None) => (w', false)
    case (w', Some(names)) => DestroyAll(w', Select(names, p))
  }

  /** The Pelt first, then the protected state, then the rest. */
  function DestroyDen(env: Env, w: World): (World, bool) {
    var (w1, pelt) := Destroy(w, PeltFile());
    if !pelt then (w1, false)
    else
      var (w2, state) := DestroyListed(env, w1, IsSecurityState);
      if !state then (w2, false)
      else
        var (w3, rest) := DestroyListed(env, w2, Expendable);
        if !rest then (w3, false) else SettleLock(w3)
  }

  function DenIsClean(env: Env, w: World): (World, Option<bool>) {
    match Entries(env, w)
    case (w', None) => (w', None)
    case (w', Some(names)) =>
      if (forall n :: n in names ==> Kept(n)) && TombstoneFile() in names then LockIsInert(w')
      else (w', Some(false))
  }

  function Mark(env: Env, w: World, t: Tombstone): (World, Outcome) {
    match Encode(env.tomb, t)
    case None => (w, NotCommitted)
    case Some(bytes) => Replace(w, TombstoneFile(), bytes, false)
  }

  /** After a durable incomplete Tombstone: destroy, verify, and only then complete. */
  function Finish(env: Env, w: World, t: Tombstone): (World, Destruction) {
    var (w1, destroyed) := DestroyDen(env, w);
    if !destroyed then (w1, Incomplete)
    else
      var (w2, clean) := DenIsClean(env, w1);
      if clean != Some(true) then (w2, Incomplete)
      else
        var (w3, outcome) := Mark(env, w2, t.(destruction := Complete));
        (w3, if outcome == Durable then Complete else Incomplete)
  }

  /** The point of no return, then destruction: how a death, a dead head and a retirement proceed. */
  function Bury(env: Env, w: World, t: Tombstone): (World, Destruction) {
    var (w', outcome) := Mark(env, w, t.(destruction := Incomplete));
    if outcome == Durable then Finish(env, w', t) else (w', Incomplete)
  }

  // ---------------------------------------------------------------- starting

  datatype Startup = Unmarked | Exits(destruction: Destruction) | Stopped

  /** `None` where the file is too long or not a Tombstone. */
  function Marked(env: Env, files: Files): Option<Tombstone> {
    if TombstoneFile() in files && |files[TombstoneFile()]| <= MAX_LEN + 1
    then Parse(env.tomb, files[TombstoneFile()]) else None
  }

  function Resume(env: Env, w: World, found: Tombstone): (World, Startup) {
    var (w1, clean) := if found.destruction == Complete then DenIsClean(env, w) else (w, Some(false));
    if clean.None? then (w1, Stopped)
    else if clean.value then (w1, Exits(Complete))
    else
      var (w2, outcome) :=
        if found.destruction == Complete then Mark(env, w1, found.(destruction := Incomplete)) else (w1, Durable);
      if outcome != Durable then (w2, Exits(Incomplete))
      else
        var (w3, d) := Finish(env, w2, found);
        (w3, Exits(d))
  }

  function AtStartup(env: Env, w: World): (World, Startup) {
    if !Responds(w) then (if w.up then Failed(w) else w, Stopped)
    else if TombstoneFile() !in w.view then (Drawn(w), Unmarked)
    else match Marked(env, w.view)
      case None => (Drawn(w), Stopped)
      case Some(found) => Resume(env, Drawn(w), found)
  }

  function Digits(n: nat, width: nat): string
    decreases if n > width then n else width
  {
    if n < 10 && width <= 1 then [('0' as int + n) as char]
    else Digits(n / 10, if width == 0 then 0 else width - 1) + [('0' as int + n % 10) as char]
  }

  function ArchiveName(sequence: nat): string {
    "governance_" + Digits(sequence, 8) + ".wwgov"
  }

  /** The death statement recorded for a dead head, checked against it. */
  function ArchivedDeath(env: Env, files: Files, sequence: nat, hash: Statements.Hash): Option<Statements.Statement> {
    var name := ArchiveName(sequence);
    if name !in files || |files[name]| > Statements.MAX_STATEMENT_LEN then None
    else match Statements.Decode(files[name])
      case Failure(_) => None
      case Success(st) => if env.tomb.hash(st.core) != hash || !st.core.body.Death? then None else Some(st)
  }

  datatype DeadCheck = Alive | Unavailable | Dead(tombstone: Tombstone)

  /** The Tombstone that the death recorded in `head` calls for. */
  function Deceased(env: Env, files: Files, head: Governance.Head): DeadCheck {
    match ArchivedDeath(env, files, head.sequence, head.hash)
    case None => Unavailable
    case Some(st) =>
      match MakeDeath(env.tomb, st, Incomplete, env.software)
      case None => Unavailable
      case Some(t) => Dead(t)
  }

  function CommittedHead(loaded: ProtectedState.Loaded): Option<Governance.Head> {
    if loaded.Loaded? then loaded.state.governance else None
  }

  /** A file that is absent, or within its limit and accepted by its reader. */
  predicate Reads(files: Files, name: string, limit: nat, accepts: seq<Byte> -> bool) {
    name in files ==> |files[name]| <= limit && accepts(files[name])
  }

  /** Every extra file can be read; of the contact cache only the size counts. */
  predicate ExtrasRead(env: Env, files: Files) {
    forall x: Extra ::
      Reads(files, ExtraName(x), ExtraLimit(x), (b: seq<Byte>) => x.Cache? || env.parses(x, b))
  }

  predicate SilverReads(env: Env, bytes: seq<Byte>) {
    var doc := env.store.formats.silver.read(bytes);
    doc.Some? && doc.value.version == 1 && (doc.value.mode == "locked" || doc.value.mode == "open")
  }

  function LegacyProfileList(env: Env, files: Files): seq<ProtectedDocuments.FangProfile> {
    if "fangs.json" !in files then []
    else
      var list := env.store.formats.profiles.read(files["fangs.json"]);
      if list.Some? then list.value else []
  }

  /** The flat files of a Den without generations, as a start reads them. */
  predicate LegacyReads(env: Env, files: Files) {
    var f := env.store.formats;
    && Reads(files, "silver.json", 1024, (b: seq<Byte>) => SilverReads(env, b))
    && Reads(files, "target_policy.json", 1024 * 1024, (b: seq<Byte>) => true)
    && Reads(files, "pack.json", 1024 * 1024,
             (b: seq<Byte>) => f.pack.read(b).Some? && ProtectedDocuments.ValidPack(f, f.pack.read(b).value))
    && Reads(files, "fangs.json", 1024 * 1024,
             (b: seq<Byte>) =>
               f.profiles.read(b).Some? && ProtectedDocuments.ValidProfiles(f, f.profiles.read(b).value))
    && Reads(files, "active_fangs.json", 1024 * 1024,
             (b: seq<Byte>) =>
               && f.active.read(b).Some?
               && ProtectedDocuments.ValidActive(f.active.read(b).value, LegacyProfileList(env, files)))
  }

  /** A Pack member the living head shuts out. */
  predicate Excludes(env: Env, head: Governance.Head, peer: ProtectedDocuments.PeerRecord) {
    match peer.publicKey
    case None => head.activatedAt.Some?
    case Some(text) =>
      var key := env.store.formats.key(text);
      key in head.revoked || (head.activatedAt.Some? && key !in head.roster)
  }

  /** The state, the flat files of a legacy Den and the extra files all read. */
  predicate StateReads(env: Env, files: Files) {
    var loaded := ProtectedState.Load(env.store, files);
    && !loaded.Refused?
    && (loaded.Legacy? ==> LegacyReads(env, files))
    && ExtrasRead(env, files)
  }

  /** The Tombstone that a dead committed head calls for, whatever else is in the Den. */
  function CommittedDeath(env: Env, files: Files): Option<Tombstone> {
    var head := CommittedHead(ProtectedState.Load(env.store, files));
    if head.None? || head.value.deadAt.None? then None
    else match Deceased(env, files, head.value)
      case Dead(t) => Some(t)
      case _ => None
  }

  predicate HeadIsDead(env: Env, files: Files) {
    var head := CommittedHead(ProtectedState.Load(env.store, files));
    head.Some? && head.value.deadAt.Some?
  }

  predicate Shuts(env: Env, loaded: ProtectedState.Loaded) {
    loaded.Loaded? && loaded.state.governance.Some? &&
      exists i :: 0 <= i < |loaded.state.peers| && Excludes(env, loaded.state.governance.value, loaded.state.peers[i])
  }

  /** What a start without a Tombstone finds. Everything is read before the head is looked at. */
  function DeadHead(env: Env, files: Files): DeadCheck {
    if !StateReads(env, files) then Unavailable
    else if HeadIsDead(env, files) then
      match CommittedDeath(env, files)
      case None => Unavailable
      case Some(t) => Dead(t)
    else if Shuts(env, ProtectedState.Load(env.store, files)) then Unavailable
    else Alive
  }

  /** Taking the Den lock creates its file. */
  function TakeLock(w: World): (World, bool) {
    if Responds(w)
    then (Drawn(w).(view := if LockFile() in w.view then w.view else w.view[LockFile() := []]), true)
    else (if w.up then Failed(w) else w, false)
  }

  /** A whole start: lock, Tombstone, state, dead head. `Unmarked` means the node goes on to run. */
  function Start(env: Env, w: World): (World, Startup) {
    var (w1, locked) := TakeLock(w);
    if !locked then (w1, Stopped)
    else
      var (w2, s) := AtStartup(env, w1);
      if !s.Unmarked? then (w2, s)
      else if !Responds(w2) then (if w2.up then Failed(w2) else w2, Stopped)
      else match DeadHead(env, w2.view)
        case Alive => (Drawn(w2), Unmarked)
        case Unavailable => (Drawn(w2), Stopped)
        case Dead(t) =>
          var (w3, d) := Bury(env, Drawn(w2), t);
          (w3, Exits(d))
  }

  /** A commit asked of a running node. */
  datatype Mutation = Mutation(current: U64, state: ProtectedDocuments.State)

  /** Commits in turn, until one is left in doubt. */
  function Mutated(f: ProtectedState.Store, w: World, mutations: seq<Mutation>): World
    decreases |mutations|
  {
    if mutations == [] then w
    else
      var (w', t) := ProtectedState.Commit(f, w, mutations[0].current, mutations[0].state);
      if t.Unsure? then w' else Mutated(f, w', mutations[1..])
  }

  /** One life of the process: a start and, if it runs, any commits and then at most one order to die or
      retire. */
  function Live(env: Env, w: World, mutations: seq<Mutation>, order: Option<Tombstone>): World {
    var (w', s) := Start(env, w);
    if !s.Unmarked? then w'
    else
      var w'' := Mutated(env.store, w', mutations);
      if order.Some? then Bury(env, w'', order.value).0 else w''
  }
}
