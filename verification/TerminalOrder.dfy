/** The order of destruction: the identity first, then the protected state, then the rest. */
module TerminalOrder {
  import opened Basics
  import opened LocalFs
  import opened Terminal

  /** Seen and synced, every name outside `names` is as it was. */
  ghost predicate OnlyTouches(w: World, w': World, names: iset<string>) {
    forall n :: n !in names ==> Lookup(w'.view, n) == Lookup(w.view, n) && Lookup(w'.synced, n) == Lookup(w.synced, n)
  }

  /** The entry is gone, and what a crash may bring back of it is zeros. */
  ghost predicate Erased(w: World, n: string, was: Files) {
    n !in w.view && (n in w.synced && n in was ==> w.synced[n] == Zeros(|was[n]|))
  }

  lemma {:induction false} DestroyTouches(w: World, name: string)
    ensures var (w', ok) := Destroy(w, name);
      && OnlyTouches(w, w', iset{name})
      && (ok ==> Erased(w', name, w.view))
      && (ok && name !in w.view ==> Lookup(w'.synced, name) == Lookup(w.synced, name))
  {
  }

  lemma {:induction false} TouchesFurther(a: World, b: World, c: World, names: iset<string>)
    requires OnlyTouches(a, b, names) && OnlyTouches(b, c, names)
    ensures OnlyTouches(a, c, names)
  {
  }

  lemma {:induction false} TouchesMore(a: World, b: World, names: iset<string>, more: iset<string>)
    requires OnlyTouches(a, b, names) && names <= more
    ensures OnlyTouches(a, b, more)
  {
  }

  /** Once erased, an entry stays erased while others are destroyed. */
  lemma {:induction false} ErasedStays(w: World, name: string, n: string, was: Files)
    requires Erased(w, n, was)
    ensures Erased(Destroy(w, name).0, n, was)
  {
  }

  lemma {:induction false} AllErasedStays(w: World, names: seq<string>, n: string, was: Files)
    requires Erased(w, n, was)
    ensures Erased(DestroyAll(w, names).0, n, was)
    decreases |names|
  {
    hide Erased;
    hide Destroy;
    if names != [] {
      ErasedStays(w, names[0], n, was);
      AllErasedStays(Destroy(w, names[0]).0, names[1..], n, was);
    }
  }

  lemma {:induction false} DestroyAllTouches(w: World, names: seq<string>, all: iset<string>)
    requires forall n :: n in names ==> n in all
    ensures OnlyTouches(w, DestroyAll(w, names).0, all)
    decreases |names|
  {
    hide Destroy;
    if names != [] {
      DestroyTouches(w, names[0]);
      var (w', ok) := Destroy(w, names[0]);
      TouchesMore(w, w', iset{names[0]}, all);
      if ok {
        DestroyAllTouches(w', names[1..], all);
        TouchesFurther(w, w', DestroyAll(w', names[1..]).0, all);
      }
    }
  }

  lemma {:induction false} DestroyAllErases(w: World, names: seq<string>, n: string)
    requires n in names && DestroyAll(w, names).1
    ensures Erased(DestroyAll(w, names).0, n, w.view)
    decreases |names|
  {
    hide Destroy;
    var (w', ok) := Destroy(w, names[0]);
    DestroyTouches(w, names[0]);
    if n == names[0] {
      AllErasedStays(w', names[1..], n, w.view);
    } else {
      assert n in names[1..];
      DestroyAllErases(w', names[1..], n);
      SameEntry(w, w', iset{names[0]}, n);
    }
  }

  lemma {:induction false} SameEntry(w: World, w': World, names: iset<string>, n: string)
    requires OnlyTouches(w, w', names) && n !in names
    ensures (n in w.view <==> n in w'.view) && (n in w.view ==> w'.view[n] == w.view[n])
  {
    assert Lookup(w'.view, n) == Lookup(w.view, n);
  }

  ghost function Named(p: string -> bool): iset<string> {
    iset n: string | p(n)
  }

  /** One listed round: it touches only what it selects, and if it succeeds all of that is erased. */
  lemma {:induction false} ListedRound(env: Env, w: World, p: string -> bool)
    requires env.Lists()
    ensures var (w', ok) := DestroyListed(env, w, p);
      && OnlyTouches(w, w', Named(p))
      && (ok ==> forall n :: n in w.view && p(n) ==> Erased(w', n, w.view))
      && (ok ==> forall n :: p(n) ==> n !in w'.view)
  {
    hide Destroy;
    if Responds(w) {
      var names := Select(env.order(w.view), p);
      var w1 := Drawn(w);
      DestroyAllTouches(w1, names, Named(p));
      if DestroyAll(w1, names).1 {
        forall n | n in w.view && p(n) ensures Erased(DestroyAll(w1, names).0, n, w.view) {
          DestroyAllErases(w1, names, n);
        }
        forall n | p(n) ensures n !in DestroyAll(w1, names).0.view {
          if n !in w.view {
            NeverAppears(w1, names, n);
          }
        }
      }
    }
  }

  lemma {:induction false} NeverAppears(w: World, names: seq<string>, n: string)
    requires n !in w.view
    ensures n !in DestroyAll(w, names).0.view
    decreases |names|
  {
    if names != [] {
      NeverAppears(Destroy(w, names[0]).0, names[1..], n);
    }
  }

  lemma {:induction false} RoundKeepsErased(env: Env, w: World, p: string -> bool, n: string, was: Files)
    requires Erased(w, n, was)
    ensures Erased(DestroyListed(env, w, p).0, n, was)
  {
    hide DestroyAll;
    if Responds(w) {
      AllErasedStays(Drawn(w), Select(env.order(w.view), p), n, was);
    }
  }

  lemma {:induction false} SettlingKeepsErased(w: World, n: string, was: Files)
    requires Erased(w, n, was) && n != LockFile()
    ensures Erased(SettleLock(w).0, n, was)
  {
    hide LockFile;
  }

  /** What a restart may find of an entry: as before, nothing, or zeros. */
  ghost predicate Wiped(files: Files, n: string, was: Files) {
    n in files && n in was ==> files[n] == Zeros(|was[n]|)
  }

  ghost predicate SameExcept(files: Files, was: Files, names: iset<string>) {
    forall n :: n !in names ==> Lookup(files, n) == Lookup(was, n)
  }

  lemma {:induction false} ErasedIsWiped(w: World, files: Files, n: string, was: Files)
    requires Erased(w, n, was) && Resolves(w, files)
    ensures Wiped(files, n, was)
  {
    assert Lookup(files, n) == Lookup(w.view, n) || Lookup(files, n) == Lookup(w.synced, n);
  }

  lemma {:induction false} TouchedResolves(w: World, w': World, files: Files, names: iset<string>)
    requires w.view == w.synced && OnlyTouches(w, w', names) && Resolves(w', files)
    ensures SameExcept(files, w.view, names)
  {
  }

  lemma {:induction false} DestroyDenFromPelt(env: Env, w: World)
    requires env.Lists() && Destroy(w, PeltFile()).1
    ensures Erased(DestroyDen(env, w).0, PeltFile(), w.view)
  {
    var w1 := Destroy(w, PeltFile()).0;
    DestroyTouches(w, PeltFile());
    DenNames();
    RoundKeepsErased(env, w1, IsSecurityState, PeltFile(), w.view);
    var (w2, state) := DestroyListed(env, w1, IsSecurityState);
    RoundKeepsErased(env, w2, Expendable, PeltFile(), w.view);
    var (w3, rest) := DestroyListed(env, w2, Expendable);
    SettlingKeepsErased(w3, PeltFile(), w.view);
    hide Destroy;
    hide DestroyListed;
    hide SettleLock;
    hide Erased;
    hide PeltFile;
    hide LockFile;
    hide TombstoneFile;
  }

  /** However destruction ends, and whatever a crash then brings back: nothing but the Pelt was touched, or
      nothing is left of the Pelt but zeros. */
  lemma {:induction false} PeltGoesFirst(env: Env, w: World, files: Files)
    requires env.Lists() && w.view == w.synced && Resolves(DestroyDen(env, w).0, files)
    ensures SameExcept(files, w.view, iset{PeltFile()}) || Wiped(files, PeltFile(), w.view)
  {
    hide PeltFile;
    hide Resolves;
    var (w1, pelt) := Destroy(w, PeltFile());
    if pelt {
      DestroyDenFromPelt(env, w);
      hide DestroyDen;
      hide Destroy;
      ErasedIsWiped(DestroyDen(env, w).0, files, PeltFile(), w.view);
    } else {
      DestroyTouches(w, PeltFile());
      assert DestroyDen(env, w).0 == w1;
      hide DestroyDen;
      hide Destroy;
      TouchedResolves(w, w1, files, iset{PeltFile()});
    }
  }

  ghost function Secrets(): iset<string> {
    iset n: string | n == PeltFile() || IsSecurityState(n)
  }

  lemma {:induction false} FromState(env: Env, w: World, n: string)
    requires env.Lists() && Destroy(w, PeltFile()).1 && IsSecurityState(n) && n in w.view && n != PeltFile()
    requires DestroyListed(env, Destroy(w, PeltFile()).0, IsSecurityState).1
    ensures Erased(DestroyDen(env, w).0, n, w.view)
  {
    var w1 := Destroy(w, PeltFile()).0;
    DestroyTouches(w, PeltFile());
    SameEntry(w, w1, iset{PeltFile()}, n);
    ListedRound(env, w1, IsSecurityState);
    var w2 := DestroyListed(env, w1, IsSecurityState).0;
    assert Erased(w2, n, w1.view);
    assert Erased(w2, n, w.view);
    RoundKeepsErased(env, w2, Expendable, n, w.view);
    var w3 := DestroyListed(env, w2, Expendable).0;
    DenNames();
    SettlingKeepsErased(w3, n, w.view);
    hide Destroy;
    hide DestroyListed;
    hide SettleLock;
    hide Erased;
    hide PeltFile;
    hide LockFile;
    hide TombstoneFile;
    hide IsSecurityState;
  }

  /** In the same way the protected state goes before the rest. */
  lemma {:induction false} StateGoesNext(env: Env, w: World, files: Files, n: string)
    requires env.Lists() && w.view == w.synced && Resolves(DestroyDen(env, w).0, files)
    requires IsSecurityState(n) && n in w.view && n != PeltFile()
    ensures SameExcept(files, w.view, Secrets()) || Wiped(files, n, w.view)
  {
    hide PeltFile;
    hide Resolves;
    hide IsSecurityState;
    var (w1, pelt) := Destroy(w, PeltFile());
    DestroyTouches(w, PeltFile());
    TouchesMore(w, w1, iset{PeltFile()}, Secrets());
    var (w2, state) := DestroyListed(env, w1, IsSecurityState);
    if pelt && state {
      FromState(env, w, n);
      hide DestroyDen;
      hide Destroy;
      hide DestroyListed;
      ErasedIsWiped(DestroyDen(env, w).0, files, n, w.view);
    } else {
      var end := DestroyDen(env, w).0;
      assert end == if pelt then w2 else w1;
      ListedRound(env, w1, IsSecurityState);
      hide DestroyDen;
      hide Destroy;
      hide DestroyListed;
      TouchesMore(w1, w2, Named(IsSecurityState), Secrets());
      TouchesFurther(w, w1, w2, Secrets());
      TouchedResolves(w, end, files, Secrets());
    }
  }
}
