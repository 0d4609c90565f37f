/** Death and retirement as the node carries them out. */
module TerminalMethods {
  import opened Basics
  import opened LocalFs
  import opened Tombstones
  import opened Terminal
  import opened ProtectedStore
  import AG = AuthorityGate
  import Authority

  method DestroyEntry(den: PrivateDirectory, name: string) returns (ok: bool)
    modifies den
    ensures (den.world, ok) == Destroy(old(den.world), name)
  {
    if !den.world.up {
      return false;
    }
    var before := den.world;
    match NextFault(before)
    case Works =>
      den.world := Drawn(before);
      if name in before.view {
        den.world := den.world.(synced := Overwritten(before.synced, name, Zeros(|before.view[name]|)));
      }
      den.world := den.world.(view := before.view - {name});
      return true;
    case Fails(late, halt, suffix, litter) =>
      den.world := Failed(before);
      if late && name in before.view {
        den.world := den.world.(
          view := before.view[name := litter], synced := Overwritten(before.synced, name, litter));
      }
      return false;
  }

  /** An operation that only looks: it may fail, and then nothing is learnt. */
  method Look(den: PrivateDirectory) returns (ok: bool)
    modifies den
    ensures ok == Responds(old(den.world))
    ensures den.world ==
      if ok then Drawn(old(den.world)) else if old(den.world).up then Failed(old(den.world)) else old(den.world)
  {
    ok := Responds(den.world);
    if ok {
      den.world := Drawn(den.world);
    } else if den.world.up {
      den.world := Failed(den.world);
    }
  }

  method ScrubLockFile(den: PrivateDirectory) returns (ok: bool)
    modifies den
    ensures (den.world, ok) == ScrubLock(old(den.world))
  {
    hide LockFile;
    var before := den.world;
    if !before.up {
      return false;
    }
    if LockFile() !in before.view {
      den.world := Failed(before);
      return false;
    }
    match NextFault(before)
    case Works =>
      den.world := Drawn(before).(
        view := before.view[LockFile() := []], synced := Overwritten(before.synced, LockFile(), []));
      return true;
    case Fails(late, halt, suffix, litter) =>
      den.world := Failed(before);
      if late {
        den.world := den.world.(
          view := before.view[LockFile() := litter], synced := Overwritten(before.synced, LockFile(), litter));
      }
      return false;
  }

  method SyncDirectory(den: PrivateDirectory) returns (ok: bool)
    modifies den
    ensures (den.world, ok) == Sync(old(den.world))
  {
    ok := Look(den);
    if ok {
      den.world := den.world.(synced := den.world.view);
    }
  }

  lemma {:induction false} SelectDrop(names: seq<string>, p: string -> bool, i: nat)
    requires i < |names|
    ensures Select(names[i..], p) ==
      if p(names[i]) then [names[i]] + Select(names[i + 1..], p) else Select(names[i + 1..], p)
  {
    assert names[i..][0] == names[i] && names[i..][1..] == names[i + 1..];
  }

  /** Lists the Den and destroys what the filter selects, in listing order. */
  method DestroySelected(env: Env, den: PrivateDirectory, p: string -> bool) returns (ok: bool)
    modifies den
    ensures (den.world, ok) == DestroyListed(env, old(den.world), p)
  {
    hide Destroy;
    var names := env.order(den.world.view);
    ok := Look(den);
    if !ok {
      return;
    }
    ghost var start := den.world;
    var i := 0;
    assert names[0..] == names;
    while i < |names|
      invariant i <= |names|
      invariant DestroyAll(den.world, Select(names[i..], p)) == DestroyAll(start, Select(names, p))
    {
      SelectDrop(names, p, i);
      if p(names[i]) {
        ghost var rest := Select(names[i + 1..], p);
        assert ([names[i]] + rest)[1..] == rest;
        ok := DestroyEntry(den, names[i]);
        if !ok {
          return;
        }
      }
      i := i + 1;
    }
    return true;
  }

  method DestroyDenFiles(env: Env, den: PrivateDirectory) returns (ok: bool)
    modifies den
    ensures (den.world, ok) == DestroyDen(env, old(den.world))
  {
    hide Destroy;
    hide DestroyListed;
    hide PeltFile;
    hide ScrubLock;
    hide Sync;
    ok := DestroyEntry(den, PeltFile());
    if !ok {
      return;
    }
    ok := DestroySelected(env, den, IsSecurityState);
    if !ok {
      return;
    }
    ok := DestroySelected(env, den, Expendable);
    if !ok {
      return;
    }
    var inert := Inert(den.world.view);
    ok := Look(den);
    if !ok {
      return;
    }
    if !inert {
      ok := ScrubLockFile(den);
      if !ok {
        return;
      }
    }
    ok := SyncDirectory(den);
  }

  /** Whether the Den holds just the Tombstone and an inert lock; `None` if that cannot be told. */
  method CheckClean(env: Env, den: PrivateDirectory) returns (clean: Option<bool>)
    modifies den
    ensures (den.world, clean) == DenIsClean(env, old(den.world))
  {
    hide TombstoneFile;
    hide LockFile;
    var names := env.order(den.world.view);
    var ok := Look(den);
    if !ok {
      return None;
    }
    var allowed, marked, i := true, false, 0;
    while i < |names|
      invariant i <= |names|
      invariant allowed == forall k :: 0 <= k < i ==> Kept(names[k])
      invariant marked == exists k :: 0 <= k < i && names[k] == TombstoneFile()
    {
      allowed := allowed && Kept(names[i]);
      marked := marked || names[i] == TombstoneFile();
      i := i + 1;
    }
    assert allowed == forall n :: n in names ==> Kept(n);
    if !allowed || !marked {
      return Some(false);
    }
    var inert := Inert(den.world.view);
    ok := Look(den);
    return if ok then Some(inert) else None;
  }

  method WriteTombstone(env: Env, den: PrivateDirectory, t: Tombstone) returns (outcome: Outcome)
    modifies den
    ensures (den.world, outcome) == Mark(env, old(den.world), t)
  {
    hide Encode;
    hide TombstoneFile;
    var bytes := Encode(env.tomb, t);
    if bytes.None? {
      return NotCommitted;
    }
    outcome := den.ReplaceFile(TombstoneFile(), bytes.value, false);
  }

  method FinishDestruction(env: Env, den: PrivateDirectory, t: Tombstone) returns (d: Destruction)
    modifies den
    ensures (den.world, d) == Finish(env, old(den.world), t)
  {
    hide DestroyDen;
    hide DenIsClean;
    hide Mark;
    var destroyed := DestroyDenFiles(env, den);
    if !destroyed {
      return Incomplete;
    }
    var clean := CheckClean(env, den);
    if clean != Some(true) {
      return Incomplete;
    }
    var outcome := WriteTombstone(env, den, t.(destruction := Complete));
    return if outcome == Durable then Complete else Incomplete;
  }

  method BuryDen(env: Env, den: PrivateDirectory, t: Tombstone) returns (outcome: Outcome, d: Destruction)
    modifies den
    ensures (den.world, d) == Bury(env, old(den.world), t)
    ensures outcome == Mark(env, old(den.world), t.(destruction := Incomplete)).1
  {
    hide Mark;
    hide Finish;
    outcome := WriteTombstone(env, den, t.(destruction := Incomplete));
    if outcome != Durable {
      return outcome, Incomplete;
    }
    d := FinishDestruction(env, den, t);
  }

  method CheckTombstone(env: Env, den: PrivateDirectory) returns (s: Startup)
    modifies den
    ensures (den.world, s) == AtStartup(env, old(den.world))
  {
    hide TombstoneFile;
    hide Marked;
    hide DenIsClean;
    hide Mark;
    hide Finish;
    var files := den.world.view;
    var ok := Look(den);
    if !ok {
      return Stopped;
    }
    if TombstoneFile() !in files {
      return Unmarked;
    }
    var parsed := Marked(env, files);
    if parsed.None? {
      return Stopped;
    }
    var found := parsed.value;
    if found.destruction == Complete {
      var clean := CheckClean(env, den);
      if clean.None? {
        return Stopped;
      }
      if clean.value {
        return Exits(Complete);
      }
      var outcome := WriteTombstone(env, den, found.(destruction := Incomplete));
      if outcome != Durable {
        return Exits(Incomplete);
      }
    }
    var d := FinishDestruction(env, den, found);
    return Exits(d);
  }

  method StartNode(env: Env, den: PrivateDirectory) returns (s: Startup)
    modifies den
    ensures (den.world, s) == Start(env, old(den.world))
  {
    hide LockFile;
    hide AtStartup;
    hide DeadHead;
    hide Bury;
    var ok := Look(den);
    if !ok {
      return Stopped;
    }
    if LockFile() !in den.world.view {
      den.world := den.world.(view := den.world.view[LockFile() := []]);
    }
    s := CheckTombstone(env, den);
    if !s.Unmarked? {
      return;
    }
    var head := DeadHead(env, den.world.view);
    ok := Look(den);
    if !ok {
      return Stopped;
    }
    match head
    case Alive => return Unmarked;
    case Unavailable => return Stopped;
    case Dead(t) =>
      var outcome, d := BuryDen(env, den, t);
      return Exits(d);
  }

  // ---------------------------------------------------------------- the running node

  datatype Retirement = Mismatch | SaveFailed | InDoubt | Retired(destruction: Destruction)

  ghost function Locked(g: AG.Gate): AG.Gate {
    AG.Step(g, AG.Lock).0
  }

  class Daemon {
    const den: PrivateDirectory
    const authority: Authority.Authority
    const silver: bool
    const unadmitted: bool
    var pelt: Option<string>
    var dying: bool
    var degraded: bool
    var exiting: bool

    constructor (
        den: PrivateDirectory, authority: Authority.Authority, pelt: Option<string>, silver: bool, unadmitted: bool)
      ensures this.den == den && this.authority == authority && this.pelt == pelt
      ensures this.silver == silver && this.unadmitted == unadmitted && !dying && !degraded && !exiting
    {
      this.den, this.authority, this.pelt := den, authority, pelt;
      this.silver, this.unadmitted := silver, unadmitted;
      dying, degraded, exiting := false, false, false;
    }

    /** Retires the node. Nothing is destroyed without a durable Tombstone; the gate reopens only when
        the Tombstone was certainly not written and nothing else holds it shut. */
    method Retire(env: Env, confirm: string, t: Tombstone) returns (r: Retirement)
      requires t.destruction == Incomplete
      modifies this`dying, this`degraded, this`exiting, den, authority
      ensures pelt.None? || pelt.value != confirm ==>
        && r == Mismatch && den.world == old(den.world)
        && authority.State() == old(authority.State()) && dying == old(dying)
      ensures pelt.Some? && pelt.value == confirm ==>
        && den.world == Bury(env, old(den.world), t).0
        && var outcome := Mark(env, old(den.world), t).1;
           && (outcome == Durable ==> r == Retired(Bury(env, old(den.world), t).1) && dying && exiting)
           && (outcome == Indeterminate ==> r == InDoubt && dying && degraded)
           && (outcome == NotCommitted ==> r == SaveFailed && !dying)
      ensures r == InDoubt ==> authority.State() == Locked(old(authority.State()))
      ensures r.Retired? ==> authority.State() == Locked(Locked(old(authority.State())))
      ensures r == SaveFailed ==>
        var locked := Locked(old(authority.State()));
        authority.State() == if silver || unadmitted then locked else AG.Step(locked, AG.Open(locked.epoch)).0
    {
      hide Mark;
      hide Finish;
      if pelt.None? || pelt.value != confirm {
        return Mismatch;
      }
      assert t == t.(destruction := Incomplete);
      dying := true;
      var locked := authority.LockGate();
      var outcome := WriteTombstone(env, den, t);
      match outcome {
        case NotCommitted =>
          dying := false;
          if !silver && !unadmitted {
            var reopened := authority.OpenAfterDurable(authority.epoch);
          }
          return SaveFailed;
        case Indeterminate =>
          degraded := true;
          return InDoubt;
        case Durable =>
      }
      locked := authority.LockGate();
      var d := FinishDestruction(env, den, t);
      exiting := true;
      return Retired(d);
    }

    /** Dies once the dead head is committed: lock, Tombstone, destroy; then the process exits. */
    method Die(env: Env, t: Tombstone) returns (d: Destruction)
      requires t.destruction == Incomplete
      modifies this`dying, this`exiting, den, authority
      ensures dying && exiting
      ensures (den.world, d) == Bury(env, old(den.world), t)
      ensures authority.State() == Locked(old(authority.State()))
    {
      hide Bury;
      dying := true;
      var locked := authority.LockGate();
      var outcome;
      outcome, d := BuryDen(env, den, t);
      exiting := true;
    }
  }
}
