/** Whole runs of `apply`: what every reachable head says about the statements that led to it. */
module Chains {
  import opened Basics
  import opened Order
  import opened Statements
  import opened Governance

  // ---------------------------------------------------------------- the chain as a list of cores

  ghost function Cores(log: seq<Statement>): (r: seq<Core>)
    ensures |r| == |log| && forall i :: 0 <= i < |log| ==> r[i] == log[i].core
  {
    seq(|log|, i requires 0 <= i < |log| => log[i].core)
  }

  predicate Fits(keys: seq<Key>, entries: seq<(Byte, Key)>) {
    forall i :: 0 <= i < |entries| ==> entries[i].0 < |keys|
  }

  /** The keys in force for sequence `s`: the genesis keys overlaid by every rotation before `s`. */
  ghost function KeysAt(cores: seq<Core>, s: nat): seq<Key>
    requires s <= |cores|
  {
    if s == 0 then []
    else
      var before := KeysAt(cores, s - 1);
      match cores[s - 1].body
      case Genesis(_, keys) => keys
      case Rotation(entries) => if Fits(before, entries) then Overlay(before, entries) else before
      case _ => before
  }

  /** The sequences that set keys, each with the keys in force from the next one on. */
  ghost function Epochs(cores: seq<Core>): seq<(nat, seq<Key>)> {
    if cores == [] then []
    else
      var n := |cores|;
      var before := Epochs(cores[..n - 1]);
      match cores[n - 1].body
      case Genesis(_, _) => before + [(n - 1, KeysAt(cores, n))]
      case Rotation(_) => before + [(n - 1, KeysAt(cores, n))]
      case _ => before
  }

  ghost function RevokedBy(cores: seq<Core>): set<Key> {
    set i, k | 0 <= i < |cores| && cores[i].body.Revocation? && k in cores[i].body.members :: k
  }

  ghost function AdmittedBy(cores: seq<Core>): set<Key> {
    set i, k | 0 <= i < |cores| && cores[i].body.Admission? && k in cores[i].body.members :: k
  }

  /** Activation and death are recorded at exactly the position of their statement. */
  ghost predicate MarksOf(h: Head, cores: seq<Core>) {
    && (forall i: nat :: h.activatedAt == Some(i) <==> i < |cores| && cores[i].body.Activation?)
    && (forall i: nat :: h.deadAt == Some(i) <==> i < |cores| && cores[i].body.Death?)
  }

  /** The head a chain of cores amounts to, field by field and without reference to `apply`. */
  ghost predicate Describes(c: Crypto, h: Head, cores: seq<Core>) {
    && cores != []
    && h.networkId == cores[0].networkId
    && h.sequence == |cores| - 1
    && h.threshold == THRESHOLD
    && |h.applied| == |cores| && (forall i :: 0 <= i < |cores| ==> h.applied[i] == c.hash(cores[i]))
    && h.hash == c.hash(cores[|cores| - 1])
    && h.keyEpochs == Epochs(cores)
    && StrictlySorted(h.revoked) && Elems(h.revoked) == RevokedBy(cores)
    && StrictlySorted(h.roster) && Elems(h.roster) == AdmittedBy(cores) - RevokedBy(cores)
    && MarksOf(h, cores)
  }

  function Unforked(h: Head): Head {
    h.(forked := false)
  }

  lemma {:induction false} DescribesUnique(c: Crypto, a: Head, b: Head, cores: seq<Core>)
    requires Describes(c, a, cores) && Describes(c, b, cores)
    ensures Unforked(a) == Unforked(b)
  {
    SortedUnique(a.revoked, b.revoked);
    SortedUnique(a.roster, b.roster);
    assert a.applied == b.applied;
    assert a.activatedAt == b.activatedAt by {
      if a.activatedAt.Some? {
        assert a.activatedAt == Some(a.activatedAt.value);
      }
      if b.activatedAt.Some? {
        assert b.activatedAt == Some(b.activatedAt.value);
      }
    }
    assert a.deadAt == b.deadAt by {
      if a.deadAt.Some? {
        assert a.deadAt == Some(a.deadAt.value);
      }
      if b.deadAt.Some? {
        assert b.deadAt == Some(b.deadAt.value);
      }
    }
  }

  lemma {:induction false} KeysAtPrefix(a: seq<Core>, b: seq<Core>, s: nat)
    requires s <= |a| && s <= |b| && a[..s] == b[..s]
    ensures KeysAt(a, s) == KeysAt(b, s)
  {
    if s > 0 {
      assert a[..s - 1] == a[..s][..s - 1] && b[..s - 1] == b[..s][..s - 1];
      KeysAtPrefix(a, b, s - 1);
      assert a[s - 1] == a[..s][s - 1] == b[s - 1];
    }
  }

  // ---------------------------------------------------------------- folding apply over a log

  /** The head after applying `log` to nothing, if the last statement was applied. */
  ghost function Fold(c: Crypto, log: seq<Statement>): (r: Option<Head>)
    ensures r.Some? ==> Check(r.value)
  {
    if log == [] then None
    else
      var st := log[|log| - 1];
      var before := Fold(c, log[..|log| - 1]);
      ApplyKeepsCheck(c, before, st, Some(c.hash(st.core)));
      match Apply(c, before, st, Some(c.hash(st.core)))
      case Success(Applied(h)) => Some(h)
      case _ => None
  }

  /** Every statement of `log` was applied in turn. */
  ghost predicate Good(c: Crypto, log: seq<Statement>) {
    forall n :: 0 < n <= |log| ==> Fold(c, log[..n]).Some?
  }

  lemma {:induction false} GoodPrefix(c: Crypto, log: seq<Statement>, n: nat)
    requires Good(c, log) && n <= |log|
    ensures Good(c, log[..n])
    ensures n > 0 ==> Fold(c, log[..n]).Some?
  {
    forall m | 0 < m <= n ensures Fold(c, log[..n][..m]).Some? {
      assert log[..n][..m] == log[..m];
    }
  }

  lemma {:induction false} GoodAppend(c: Crypto, log: seq<Statement>, st: Statement)
    requires Good(c, log) && Fold(c, log + [st]).Some?
    ensures Good(c, log + [st])
  {
    var longer := log + [st];
    forall n | 0 < n <= |longer| ensures Fold(c, longer[..n]).Some? {
      if n <= |log| {
        assert longer[..n] == log[..n];
      } else {
        assert longer[..n] == longer;
      }
    }
  }

  ghost predicate KeysGood(c: Crypto, keys: seq<Key>) {
    |keys| == KEY_COUNT && Distinct(keys) && forall i :: 0 <= i < |keys| ==> c.Strong(keys[i])
  }

  /** The keys that verified the statement at position `i`. */
  ghost function VerifiersOf(cores: seq<Core>, i: nat): seq<Key>
    requires i < |cores|
  {
    KeysAt(cores, if i == 0 then 1 else i)
  }

  /** What `apply` established about the statement at position `i` of a log. */
  ghost predicate LinkedAt(c: Crypto, log: seq<Statement>, i: nat)
    requires i < |log|
  {
    var core := log[i].core;
    && core.sequence == i
    && core.networkId == log[0].core.networkId
    && core.previous == (if i == 0 then Zeros(32) else c.hash(log[i - 1].core))
    && (core.body.Genesis? <==> i == 0)
    && (core.body.Death? ==> i == |log| - 1)
    && KeysGood(c, VerifiersOf(Cores(log), i))
    && SignaturesValid(c, log[i], VerifiersOf(Cores(log), i), THRESHOLD)
  }

  ghost predicate Linked(c: Crypto, log: seq<Statement>) {
    forall i :: 0 <= i < |log| ==> LinkedAt(c, log, i)
  }

  lemma {:induction false} FoldFirst(c: Crypto, log: seq<Statement>)
    requires |log| == 1 && Good(c, log)
    ensures Fold(c, log).Some? && Describes(c, Fold(c, log).value, Cores(log))
    ensures Linked(c, log) && KeysGood(c, KeysAt(Cores(log), 1))
    ensures Fold(c, log).value.Keys() == KeysAt(Cores(log), 1)
    ensures !Fold(c, log).value.forked
  {
    assert log[..1] == log;
    assert log[..|log| - 1] == [] && Fold(c, []) == None;
    assert ApplyGenesis(c, log[0], Some(c.hash(log[0].core))) == Success(Applied(Fold(c, log).value));
    var cores := Cores(log);
    var h := Fold(c, log).value;
    assert h == FirstHead(c, log[0].core);
    assert cores[..0] == [];
    assert h.keyEpochs == Epochs(cores);
    assert KeysAt(cores, 0) == [];
  }

  /** The last statement of a longer log was applied to the head of the rest. */
  lemma {:induction false} FoldLast(c: Crypto, log: seq<Statement>)
    requires |log| > 1 && Good(c, log)
    ensures var init, st := log[..|log| - 1], log[|log| - 1];
      && Good(c, init) && Fold(c, init).Some? && Fold(c, log).Some?
      && Apply(c, Fold(c, init), st, Some(c.hash(st.core))) == Success(Applied(Fold(c, log).value))
  {
    var n := |log|;
    GoodPrefix(c, log, n - 1);
    GoodPrefix(c, log, n);
    assert log[..n] == log;
  }

  lemma {:induction false} RevokedByAppend(cores: seq<Core>, core: Core)
    ensures RevokedBy(cores + [core])
            == RevokedBy(cores) + (if core.body.Revocation? then Elems(core.body.members) else {})
  {
    var all := cores + [core];
    forall k | k in RevokedBy(cores) ensures k in RevokedBy(all) {
      var i :| 0 <= i < |cores| && cores[i].body.Revocation? && k in cores[i].body.members;
      assert all[i] == cores[i];
    }
    if core.body.Revocation? {
      forall k | k in core.body.members ensures k in RevokedBy(all) {
        assert all[|cores|] == core;
      }
    }
  }

  lemma {:induction false} AdmittedByAppend(cores: seq<Core>, core: Core)
    ensures AdmittedBy(cores + [core])
            == AdmittedBy(cores) + (if core.body.Admission? then Elems(core.body.members) else {})
  {
    var all := cores + [core];
    forall k | k in AdmittedBy(cores) ensures k in AdmittedBy(all) {
      var i :| 0 <= i < |cores| && cores[i].body.Admission? && k in cores[i].body.members;
      assert all[i] == cores[i];
    }
    if core.body.Admission? {
      forall k | k in core.body.members ensures k in AdmittedBy(all) {
        assert all[|cores|] == core;
      }
    }
  }

  lemma {:induction false} EpochsFollow(c: Crypto, h: Head, cores: seq<Core>, core: Core)
    requires Check(h) && h.keyEpochs == Epochs(cores) && h.sequence == |cores| - 1
    requires h.Keys() == KeysAt(cores, |cores|)
    requires core.sequence == h.sequence + 1 && BodyValid(c, h, core.body)
    ensures var next, all := Follow(c, h, core), cores + [core];
      next.keyEpochs == Epochs(all) && next.keyEpochs != [] && next.Keys() == KeysAt(all, |all|)
  {
    var all, n := cores + [core], |cores|;
    assert all[..n] == cores == cores[..n];
    KeysAtPrefix(all, cores, n);
    assert core.body.Rotation? ==> Fits(KeysAt(all, n), core.body.entries);
  }

  lemma {:induction false} ListsFollow(c: Crypto, h: Head, cores: seq<Core>, core: Core)
    requires Check(h) && BodyValid(c, h, core.body)
    requires Elems(h.revoked) == RevokedBy(cores)
    requires Elems(h.roster) == AdmittedBy(cores) - RevokedBy(cores)
    ensures var next, all := Follow(c, h, core), cores + [core];
      && StrictlySorted(next.revoked) && Elems(next.revoked) == RevokedBy(all)
      && StrictlySorted(next.roster) && Elems(next.roster) == AdmittedBy(all) - RevokedBy(all)
  {
    RevokedByAppend(cores, core);
    AdmittedByAppend(cores, core);
    AdjacentIsStrict(h.revoked);
    AdjacentIsStrict(h.roster);
    if core.body.Revocation? {
      InsertAllSorted(h.revoked, core.body.members);
      RemoveAllSorted(h.roster, core.body.members);
    } else if core.body.Admission? {
      InsertAllSorted(h.roster, core.body.members);
      forall k | k in Elems(core.body.members) ensures k !in RevokedBy(cores) {
        assert k !in Elems(h.revoked);
      }
    }
  }

  lemma {:induction false} MarksFollow(c: Crypto, h: Head, cores: seq<Core>, core: Core)
    requires Check(h) && BodyValid(c, h, core.body) && MarksOf(h, cores) && h.deadAt.None?
    requires core.sequence == |cores|
    ensures MarksOf(Follow(c, h, core), cores + [core])
  {
    var next, all := Follow(c, h, core), cores + [core];
    forall i: nat | i < |all| ensures i < |cores| ==> all[i] == cores[i] {
    }
    forall i: nat ensures next.activatedAt == Some(i) <==> i < |all| && all[i].body.Activation? {
      assert h.activatedAt == Some(i) <==> i < |cores| && cores[i].body.Activation?;
      if core.body.Activation? && i < |cores| {
        assert h.activatedAt != Some(i);
      }
    }
    forall i: nat ensures next.deadAt == Some(i) <==> i < |all| && all[i].body.Death? {
      assert h.deadAt == Some(i) <==> i < |cores| && cores[i].body.Death?;
    }
  }

  /** One more applied statement extends the description by one core. */
  lemma {:induction false} DescribesFollow(c: Crypto, h: Head, cores: seq<Core>, core: Core)
    requires Check(h) && Describes(c, h, cores) && h.deadAt.None?
    requires h.Keys() == KeysAt(cores, |cores|)
    requires core.sequence == h.sequence + 1 && BodyValid(c, h, core.body)
    ensures var next, all := Follow(c, h, core), cores + [core];
      && Describes(c, next, all)
      && next.keyEpochs != [] && next.Keys() == KeysAt(all, |all|)
  {
    EpochsFollow(c, h, cores, core);
    ListsFollow(c, h, cores, core);
    MarksFollow(c, h, cores, core);
    var next, all := Follow(c, h, core), cores + [core];
    assert next.applied == h.applied + [c.hash(core)] && next.networkId == h.networkId
           && next.threshold == h.threshold;
    forall i | 0 <= i < |all| ensures next.applied[i] == c.hash(all[i]) {
      if i < |cores| {
        assert next.applied[i] == h.applied[i] && all[i] == cores[i];
      }
    }
  }

  lemma {:induction false} RotationKeepsGood(c: Crypto, keys: seq<Key>, entries: seq<(Byte, Key)>)
    requires KeysGood(c, keys) && RotationValid(c, keys, entries)
    ensures KeysGood(c, Overlay(keys, entries))
  {
    OverlayStrong(c, keys, entries);
  }

  lemma {:induction false} OverlayStrong(c: Crypto, keys: seq<Key>, entries: seq<(Byte, Key)>)
    requires forall i :: 0 <= i < |keys| ==> c.Strong(keys[i])
    requires forall i :: 0 <= i < |entries| ==> entries[i].0 < |keys| && c.Strong(entries[i].1)
    ensures forall i :: 0 <= i < |keys| ==> c.Strong(Overlay(keys, entries)[i])
  {
    if entries != [] {
      OverlayStrong(c, keys, entries[..|entries| - 1]);
    }
  }

  /** What it took for `st` to be applied to `h`. */
  ghost predicate AppliedTo(c: Crypto, h: Head, st: Statement, next: Head)
    requires Check(h)
  {
    && h.deadAt.None?
    && st.core.networkId == h.networkId
    && st.core.sequence == h.sequence + 1
    && st.core.previous == h.hash
    && SignaturesValid(c, st, h.Keys(), h.threshold)
    && BodyValid(c, h, st.core.body)
    && next == Follow(c, h, st.core)
  }

  lemma {:induction false} AppliedFacts(c: Crypto, h: Head, st: Statement, pinned: Option<Hash>, next: Head)
    requires Check(h) && Apply(c, Some(h), st, pinned) == Success(Applied(next))
    ensures AppliedTo(c, h, st, next)
  {
  }

  /** A described head, and the links and keys behind it. */
  ghost predicate Stage(c: Crypto, h: Head, log: seq<Statement>) {
    && log != []
    && Describes(c, h, Cores(log))
    && h.keyEpochs != [] && h.Keys() == KeysAt(Cores(log), |log|) && KeysGood(c, KeysAt(Cores(log), |log|))
    && Linked(c, log)
  }

  lemma {:induction false} KeysNext(c: Crypto, h: Head, cores: seq<Core>, core: Core)
    requires Check(h) && BodyValid(c, h, core.body)
    requires h.Keys() == KeysAt(cores, |cores|) && KeysGood(c, KeysAt(cores, |cores|))
    ensures KeysGood(c, KeysAt(cores + [core], |cores| + 1))
  {
    assert (cores + [core])[..|cores|] == cores[..|cores|];
    KeysAtPrefix(cores + [core], cores, |cores|);
    if core.body.Rotation? {
      RotationKeepsGood(c, h.Keys(), core.body.entries);
    }
  }

  lemma {:induction false} LinkNext(c: Crypto, h: Head, log: seq<Statement>, st: Statement, next: Head)
    requires Check(h) && Stage(c, h, log) && AppliedTo(c, h, st, next)
    ensures LinkedAt(c, log + [st], |log|)
  {
    var n, longer := |log|, log + [st];
    assert Cores(longer)[..n] == Cores(log)[..n];
    KeysAtPrefix(Cores(longer), Cores(log), n);
    assert longer[n - 1] == log[n - 1] && longer[0] == log[0];
    assert h.hash == c.hash(Cores(log)[n - 1]);
  }

  lemma {:induction false} NoDeathYet(c: Crypto, h: Head, log: seq<Statement>)
    requires Describes(c, h, Cores(log)) && h.deadAt.None?
    ensures forall i :: 0 <= i < |log| ==> !log[i].core.body.Death?
  {
    forall i | 0 <= i < |log| ensures !log[i].core.body.Death? {
      assert h.deadAt == Some(i) <==> Cores(log)[i].body.Death?;
    }
  }

  lemma {:induction false} StageNext(c: Crypto, h: Head, log: seq<Statement>, st: Statement, next: Head)
    requires Check(h) && Stage(c, h, log) && AppliedTo(c, h, st, next)
    ensures Stage(c, next, log + [st])
  {
    hide LinkedAt;
    var longer := log + [st];
    DescribesFollow(c, h, Cores(log), st.core);
    KeysNext(c, h, Cores(log), st.core);
    assert Cores(longer) == Cores(log) + [st.core];
    LinkNext(c, h, log, st, next);
    NoDeathYet(c, h, log);
    assert Linked(c, longer) by {
      assert longer[..|log|] == log;
      LinkedExtends(c, longer);
    }
  }

  /** The head of a log is the head its cores describe, and every link of the log was verified. */
  lemma {:induction false} FoldStage(c: Crypto, log: seq<Statement>)
    requires Good(c, log) && log != []
    ensures Fold(c, log).Some? && !Fold(c, log).value.forked && Stage(c, Fold(c, log).value, log)
    decreases |log|
  {
    if |log| == 1 {
      FoldFirst(c, log);
    } else {
      var init, st := log[..|log| - 1], log[|log| - 1];
      FoldLast(c, log);
      FoldStage(c, init);
      var h, next := Fold(c, init).value, Fold(c, log).value;
      AppliedFacts(c, h, st, Some(c.hash(st.core)), next);
      StageNext(c, h, init, st, next);
      assert log == init + [st];
    }
  }

  lemma {:induction false} FoldDescribed(c: Crypto, log: seq<Statement>)
    requires Good(c, log) && log != []
    ensures Fold(c, log).Some?
    ensures Describes(c, Fold(c, log).value, Cores(log)) && !Fold(c, log).value.forked
    ensures Linked(c, log)
  {
    FoldStage(c, log);
  }

  lemma {:induction false} LinkedExtends(c: Crypto, log: seq<Statement>)
    requires |log| > 1 && Linked(c, log[..|log| - 1]) && LinkedAt(c, log, |log| - 1)
    requires forall i :: 0 <= i < |log| - 1 ==> !log[i].core.body.Death?
    ensures Linked(c, log)
  {
    var init := log[..|log| - 1];
    forall i | 0 <= i < |log| ensures LinkedAt(c, log, i) {
      if i < |init| {
        assert LinkedAt(c, init, i);
        var s := if i == 0 then 1 else i;
        assert Cores(log)[..s] == Cores(init)[..s];
        KeysAtPrefix(Cores(log), Cores(init), s);
      }
    }
  }
}
