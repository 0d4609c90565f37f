/** What each step of a destruction keeps. */
module TerminalSteps {
  import opened Basics
  import opened LocalFs
  import opened Tombstones
  import opened Terminal

  /** The Tombstone file holds `bytes` in view and on disk. */
  ghost predicate Under(w: World, bytes: seq<Byte>) {
    Lookup(w.view, TombstoneFile()) == Some(bytes) && Lookup(w.synced, TombstoneFile()) == Some(bytes)
  }

  /** No entry appears that was not there. */
  ghost predicate Shrinks(w: World, w': World) {
    && (forall n :: n in w'.view ==> n in w.view)
    && (forall n :: n in w'.synced ==> n in w.synced || n in w.view)
  }

  predicate Healthy(w: World) {
    w.up && w.faults == []
  }

  /** What holds after any destruction step, whatever went wrong in it. */
  ghost predicate Careful(w: World, w': World, ok: bool, bytes: seq<Byte>) {
    && Under(w', bytes)
    && Shrinks(w, w')
    && (ok ==> w'.up)
    && (Healthy(w) ==> ok && Healthy(w'))
  }

  lemma {:induction false} CarefulThen(a: World, b: World, c: World, ok: bool, bytes: seq<Byte>)
    requires Careful(a, b, true, bytes) && Careful(b, c, ok, bytes)
    ensures Careful(a, c, ok, bytes)
  {
  }

  lemma {:induction false} DestroyCareful(w: World, name: string, bytes: seq<Byte>)
    requires Under(w, bytes) && name != TombstoneFile()
    ensures var (w', ok) := Destroy(w, name);
      Careful(w, w', ok, bytes) && (ok ==> name !in w'.view)
  {
    hide TombstoneFile;
  }

  lemma {:induction false} DestroyAllCareful(w: World, names: seq<string>, bytes: seq<Byte>)
    requires Under(w, bytes) && TombstoneFile() !in names && w.up
    ensures var (w', ok) := DestroyAll(w, names);
      Careful(w, w', ok, bytes) && (ok ==> forall n :: n in names ==> n !in w'.view)
    decreases |names|
  {
    hide TombstoneFile;
    if names != [] {
      DestroyCareful(w, names[0], bytes);
      var (w', ok) := Destroy(w, names[0]);
      hide Destroy;
      if ok {
        DestroyAllCareful(w', names[1..], bytes);
        CarefulThen(w, w', DestroyAll(w', names[1..]).0, DestroyAll(w', names[1..]).1, bytes);
        assert names == [names[0]] + names[1..];
      }
    }
  }

  lemma {:induction false} DestroyListedCareful(env: Env, w: World, p: string -> bool, bytes: seq<Byte>)
    requires env.Lists() && Under(w, bytes) && !p(TombstoneFile())
    ensures var (w', ok) := DestroyListed(env, w, p);
      Careful(w, w', ok, bytes) && (ok ==> forall n :: n in w'.view ==> !p(n))
  {
    hide TombstoneFile;
    var (w1, names) := Entries(env, w);
    if names.Some? {
      DestroyAllCareful(w1, Select(names.value, p), bytes);
      hide DestroyAll;
      var (w', ok) := DestroyListed(env, w, p);
      if ok {
        forall n | n in w'.view ensures !p(n) {
          assert n in env.order(w.view);
        }
      }
    }
  }

  lemma {:induction false} SettleLockCareful(w: World, bytes: seq<Byte>)
    requires Under(w, bytes)
    ensures var (w', ok) := SettleLock(w);
      Careful(w, w', ok, bytes) && (ok ==> w'.view == w'.synced && Inert(w'.view))
  {
    DenNames();
    hide TombstoneFile;
    hide LockFile;
    hide PeltFile;
  }

  /** Only the Tombstone and an inert lock. */
  predicate Clean(files: Files) {
    && (forall n :: n in files ==> Kept(n))
    && TombstoneFile() in files
    && Inert(files)
  }

  /** Whatever happens in it, destruction leaves the Tombstone alone and brings no entry back; when it
      reports success the Den is clean and synced; and without failures it succeeds. */
  lemma {:induction false} DestroyDenCareful(env: Env, w: World, bytes: seq<Byte>)
    requires env.Lists() && Under(w, bytes)
    ensures var (w', ok) := DestroyDen(env, w);
      Careful(w, w', ok, bytes) && (ok ==> w'.view == w'.synced && Clean(w'.view))
  {
    DenNames();
    hide IsSecurityState;
    hide TombstoneFile;
    hide LockFile;
    hide PeltFile;
    hide Env.Lists;
    var (w1, pelt) := Destroy(w, PeltFile());
    DestroyCareful(w, PeltFile(), bytes);
    hide Destroy;
    if pelt {
      var (w2, state) := DestroyListed(env, w1, IsSecurityState);
      DestroyListedCareful(env, w1, IsSecurityState, bytes);
      if state {
        CarefulThen(w, w1, w2, true, bytes);
        var (w3, rest) := DestroyListed(env, w2, Expendable);
        DestroyListedCareful(env, w2, Expendable, bytes);
        hide DestroyListed;
        if rest {
          CarefulThen(w, w2, w3, true, bytes);
          SettleLockCareful(w3, bytes);
          var (w4, ok) := SettleLock(w3);
          hide SettleLock;
          CarefulThen(w, w3, w4, ok, bytes);
          assert forall n :: n in w3.view ==> !Expendable(n);
        } else {
          CarefulThen(w, w2, w3, false, bytes);
        }
      } else {
        CarefulThen(w, w1, w2, false, bytes);
      }
    }
  }

  lemma {:induction false} DenIsCleanCareful(env: Env, w: World)
    requires env.Lists()
    ensures var (w', r) := DenIsClean(env, w);
      && w'.view == w.view && w'.synced == w.synced
      && (r.Some? ==> r.value == Clean(w.view) && w'.up)
      && (Healthy(w) ==> r.Some? && Healthy(w'))
  {
    hide Kept;
    hide TombstoneFile;
    hide LockFile;
    assert forall n :: n in env.order(w.view) <==> n in w.view;
  }

  /** How writing the Tombstone can end. */
  lemma {:induction false} MarkEnds(env: Env, w: World, t: Tombstone)
    ensures var (w', o) := Mark(env, w, t);
      && (o == Durable ==>
            && Encode(env.tomb, t).Some? && w'.up
            && w'.view == w'.synced == w.view[TombstoneFile() := Encode(env.tomb, t).value])
      && (o == NotCommitted ==> SameBut(w'.view, w.view, {}) && w'.synced == w.synced)
      && (o == NotCommitted ==> forall n :: n in w'.view ==> IsTemporary(n) || n in w.view)
      && (o == Indeterminate ==>
            && Encode(env.tomb, t).Some? && w'.synced == w.synced
            && w'.view == w.view[TombstoneFile() := Encode(env.tomb, t).value])
      && (Healthy(w) && Encode(env.tomb, t).Some? ==> o == Durable && Healthy(w'))
  {
    hide TombstoneFile;
    hide IsTemporary;
    if Encode(env.tomb, t).Some? {
      EncodedSize(env.tomb, t);
      hide Encode;
      if NextFault(w).Fails? {
        TemporariesMarked(NextFault(w).suffix);
      }
    }
  }

  lemma {:induction false} EncodedSize(f: Formats, t: Tombstone)
    requires Encode(f, t).Some?
    ensures |Encode(f, t).value| <= MAX_LEN
  {
    hide DocumentOf;
  }

  /** A file holding a sound Tombstone's bytes is read as that Tombstone. */
  lemma {:induction false} ReadsAs(env: Env, files: Files, t: Tombstone, bytes: seq<Byte>)
    requires env.tomb.Faithful() && Sound(t) && Encode(env.tomb, t) == Some(bytes)
    requires Lookup(files, TombstoneFile()) == Some(bytes)
    ensures Marked(env, files) == Some(t)
  {
    EncodedSize(env.tomb, t);
    hide TombstoneFile;
    hide Encode;
    hide Parse;
    hide Sound;
    ParseExact(env.tomb, bytes, t);
  }

  /** What a Tombstone file was read as, it holds the bytes of. */
  lemma {:induction false} ReadFrom(env: Env, files: Files)
    requires env.tomb.Faithful() && Marked(env, files).Some?
    ensures Sound(Marked(env, files).value)
    ensures TombstoneFile() in files && Encode(env.tomb, Marked(env, files).value) == Some(files[TombstoneFile()])
  {
    hide TombstoneFile;
    hide Encode;
    hide Parse;
    hide Sound;
    ParseExact(env.tomb, files[TombstoneFile()], Marked(env, files).value);
  }
}
