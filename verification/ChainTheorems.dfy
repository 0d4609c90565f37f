/** Properties of every run of `apply`, from no head at all and over any inputs. */
module ChainTheorems {
  import opened Basics
  import opened Order
  import opened Statements
  import opened Governance
  import opened Chains

  /** A statement offered to the node with the genesis hash it is pinned to, if any. */
  datatype Input = Input(statement: Statement, pinned: Option<Hash>)

  /** The head the node holds after one input: applied and fork outcomes are stored, others change nothing. */
  ghost function Step(c: Crypto, head: Option<Head>, input: Input): (r: Option<Head>)
    requires head.Some? ==> Check(head.value)
    ensures r.Some? ==> Check(r.value)
  {
    ApplyKeepsCheck(c, head, input.statement, input.pinned);
    match Apply(c, head, input.statement, input.pinned)
    case Success(Applied(next)) => Some(next)
    case Success(Fork(next)) => Some(next)
    case _ => head
  }

  ghost function Run(c: Crypto, inputs: seq<Input>): (r: Option<Head>)
    ensures r.Some? ==> Check(r.value)
  {
    if inputs == [] then None
    else Step(c, Run(c, inputs[..|inputs| - 1]), inputs[|inputs| - 1])
  }

  /** The statements a run applied, in order. */
  ghost function LogOf(c: Crypto, inputs: seq<Input>): seq<Statement> {
    if inputs == [] then []
    else
      var before, input := inputs[..|inputs| - 1], inputs[|inputs| - 1];
      match Apply(c, Run(c, before), input.statement, input.pinned)
      case Success(Applied(_)) => LogOf(c, before) + [input.statement]
      case _ => LogOf(c, before)
  }

  /** `forked` never makes a statement acceptable, and the applied head differs in nothing else. */
  lemma {:induction false} ApplyUnforked(c: Crypto, h: Head, st: Statement, pinned: Option<Hash>)
    requires Check(h) && Apply(c, Some(h), st, pinned).Success?
    requires Apply(c, Some(h), st, pinned).value.Applied?
    ensures Check(Unforked(h))
    ensures var next := Apply(c, Some(h), st, pinned).value.head;
      && Apply(c, Some(Unforked(h)), st, Some(c.hash(st.core))) == Success(Applied(Unforked(next)))
      && next.forked == h.forked
  {
    assert BodyValid(c, h, st.core.body) == BodyValid(c, Unforked(h), st.core.body);
  }

  lemma {:induction false} OtherOutcomes(c: Crypto, head: Option<Head>, st: Statement, pinned: Option<Hash>)
    requires head.Some? ==> Check(head.value)
    ensures match Apply(c, head, st, pinned)
      case Success(Applied(next)) =>
        head.None? ==> !next.forked && Apply(c, None, st, Some(c.hash(st.core))) == Success(Applied(next))
      case Success(Fork(next)) => head.Some? && next == head.value.(forked := true)
      case _ => true
  {
  }

  /** A run's head is the fold of the statements it applied, apart from the fork fence. */
  lemma {:induction false} RunIsFold(c: Crypto, inputs: seq<Input>)
    ensures var log := LogOf(c, inputs);
      && Good(c, log)
      && (Run(c, inputs).None? <==> log == [])
      && (Run(c, inputs).Some? ==> Fold(c, log) == Some(Unforked(Run(c, inputs).value)))
  {
    hide Check;
    hide Apply;
    if inputs != [] {
      var before, input := inputs[..|inputs| - 1], inputs[|inputs| - 1];
      RunIsFold(c, before);
      var log, head := LogOf(c, before), Run(c, before);
      var r := Apply(c, head, input.statement, input.pinned);
      OtherOutcomes(c, head, input.statement, input.pinned);
      if r.Success? && r.value.Applied? {
        var longer := log + [input.statement];
        assert longer[..|longer| - 1] == log;
        if head.Some? {
          ApplyUnforked(c, head.value, input.statement, input.pinned);
        }
        assert Fold(c, longer) == Some(Unforked(Run(c, inputs).value));
        GoodAppend(c, log, input.statement);
      }
    }
  }

  /** Every reachable head, forked ones included, passes the structural check, and each of its
      fields is what the applied statements say. */
  lemma {:induction false} ReachableHeads(c: Crypto, inputs: seq<Input>)
    requires Run(c, inputs).Some?
    ensures Check(Run(c, inputs).value)
    ensures Describes(c, Run(c, inputs).value, Cores(LogOf(c, inputs)))
    ensures Linked(c, LogOf(c, inputs))
  {
    RunIsFold(c, inputs);
    FoldDescribed(c, LogOf(c, inputs));
  }

  // ---------------------------------------------------------------- keys and forks

  lemma {:induction false} KeysBeforeIsKeysAt(cores: seq<Core>, s: nat)
    requires 0 < s <= |cores| && cores[0].body.Genesis?
    requires forall i :: 0 < i < |cores| ==> !cores[i].body.Genesis?
    ensures Epochs(cores) != [] && Epochs(cores)[0].0 == 0
    ensures KeysBefore(Epochs(cores), s) == KeysAt(cores, s)
    decreases |cores|
  {
    var n := |cores|;
    var init := cores[..n - 1];
    var e := Epochs(cores);
    if n == 1 {
      assert init == [];
    } else {
      KeysBeforeIsKeysAt(init, if s < n then s else n - 1);
      KeysAtPrefix(cores, init, if s < n then s else n - 1);
      if e != Epochs(init) {
        assert e[..|e| - 1] == Epochs(init);
      } else if s == n {
        LastEpochBelow(init, n - 1);
        LastEpochBelow(init, n);
      }
    }
  }

  /** All epochs of `cores` are set before `|cores|`, so looking further ahead finds the same one. */
  lemma {:induction false} LastEpochBelow(cores: seq<Core>, s: nat)
    requires Epochs(cores) != [] && Epochs(cores)[0].0 < s && s >= |cores|
    ensures KeysBefore(Epochs(cores), s) == Epochs(cores)[|Epochs(cores)| - 1].1
  {
    EpochsBounded(cores);
  }

  lemma {:induction false} EpochsBounded(cores: seq<Core>)
    ensures forall i :: 0 <= i < |Epochs(cores)| ==> Epochs(cores)[i].0 < |cores|
  {
    if cores != [] {
      EpochsBounded(cores[..|cores| - 1]);
    }
  }

  lemma {:induction false} LinkedKeys(c: Crypto, log: seq<Statement>, s: nat)
    requires Linked(c, log) && 0 < s < |log|
    ensures Epochs(Cores(log)) != [] && Epochs(Cores(log))[0].0 == 0
    ensures KeysBefore(Epochs(Cores(log)), s) == KeysAt(Cores(log), s)
    ensures SignaturesValid(c, log[s], KeysAt(Cores(log), s), THRESHOLD)
  {
    var cores := Cores(log);
    assert LinkedAt(c, log, 0);
    assert LinkedAt(c, log, s);
    forall i | 0 < i < |cores| ensures !cores[i].body.Genesis? {
      assert LinkedAt(c, log, i);
    }
    KeysBeforeIsKeysAt(cores, s);
  }

  /** In every reachable head, the keys looked up for sequence `s` are the keys that verified the
      statement applied at `s`. */
  lemma {:induction false} KeysBeforeVerified(c: Crypto, inputs: seq<Input>, s: nat)
    requires Run(c, inputs).Some? && 0 < s <= Run(c, inputs).value.sequence
    ensures var h, log := Run(c, inputs).value, LogOf(c, inputs);
      && |log| == h.sequence + 1
      && KeysBefore(h.keyEpochs, s) == KeysAt(Cores(log), s)
      && SignaturesValid(c, log[s], KeysBefore(h.keyEpochs, s), THRESHOLD)
  {
    ReachableHeads(c, inputs);
    LinkedKeys(c, LogOf(c, inputs), s);
  }

  ghost function Signers(st: Statement): set<int> {
    set i | 0 <= i < |st.signatures| :: st.signatures[i].0
  }

  /** The signature of slot `i` in `st` is valid under `key`. */
  ghost predicate SignedBy(c: Crypto, key: Key, i: int, st: Statement) {
    exists j :: 0 <= j < |st.signatures| && st.signatures[j].0 == i && c.verify(key, st.core, st.signatures[j].1)
  }

  /** At least four of the ten slots of `keys` signed two different cores for one sequence. */
  ghost predicate DoubleSigned(c: Crypto, keys: seq<Key>, a: Statement, b: Statement) {
    && a.core != b.core
    && a.core.sequence == b.core.sequence
    && |keys| == KEY_COUNT
    && |Signers(a) * Signers(b)| >= 4
    && (forall i :: i in Signers(a) * Signers(b) ==>
          0 <= i < |keys| && SignedBy(c, keys[i], i, a) && SignedBy(c, keys[i], i, b))
  }

  lemma {:induction false} SignerCount(sigs: seq<(Byte, Signature)>)
    requires Increasing(sigs)
    ensures |set i | 0 <= i < |sigs| :: sigs[i].0 as int| == |sigs|
  {
    var all := set i | 0 <= i < |sigs| :: sigs[i].0 as int;
    if sigs == [] {
      assert all == {};
    } else {
      var n := |sigs| - 1;
      var init := sigs[..n];
      SignerCount(init);
      var some := set i | 0 <= i < |init| :: init[i].0 as int;
      forall x | x in all ensures x in some + {sigs[n].0 as int} {
        var i :| 0 <= i < |sigs| && sigs[i].0 == x;
        if i < n {
          assert init[i].0 == x;
        }
      }
      forall x | x in some ensures x in all {
        var i :| 0 <= i < |init| && init[i].0 == x;
        assert sigs[i].0 == x;
      }
      assert all == some + {sigs[n].0 as int};
      assert sigs[n].0 !in some;
    }
  }

  lemma {:induction false} QuorumsMeet(a: set<int>, b: set<int>)
    requires |a| >= THRESHOLD && |b| >= THRESHOLD
    requires forall x :: x in a + b ==> 0 <= x < KEY_COUNT
    ensures |a * b| >= 4
  {
    BoundedSetSize(a + b, KEY_COUNT);
    assert |a + b| == |a| + |b| - |a * b|;
  }

  lemma {:induction false} ValidSigners(c: Crypto, st: Statement, keys: seq<Key>)
    requires SignaturesValid(c, st, keys, THRESHOLD) && |keys| == KEY_COUNT
    ensures |Signers(st)| >= THRESHOLD
    ensures forall i :: i in Signers(st) ==> 0 <= i < |keys| && SignedBy(c, keys[i], i, st)
  {
    SignerCount(st.signatures);
    assert Signers(st) == set i | 0 <= i < |st.signatures| :: st.signatures[i].0 as int;
    forall i | i in Signers(st) ensures 0 <= i < |keys| && SignedBy(c, keys[i], i, st) {
      var j :| 0 <= j < |st.signatures| && st.signatures[j].0 == i;
      assert SignatureValid(c, st.signatures[j], st.core, keys);
    }
  }

  /** Two quorums of one key set over different cores share four signers. */
  lemma {:induction false} TwoQuorums(c: Crypto, keys: seq<Key>, a: Statement, b: Statement)
    requires |keys| == KEY_COUNT && a.core != b.core && a.core.sequence == b.core.sequence
    requires SignaturesValid(c, a, keys, THRESHOLD) && SignaturesValid(c, b, keys, THRESHOLD)
    ensures DoubleSigned(c, keys, a, b)
  {
    ValidSigners(c, a, keys);
    ValidSigners(c, b, keys);
    QuorumsMeet(Signers(a), Signers(b));
  }

  /** Whenever a node records a fork, four slots of the keys that verified its own statement at that
      sequence have signed both: the fork always names culprits. */
  lemma {:induction false} ForkAccountability(c: Crypto, inputs: seq<Input>, st: Statement, pinned: Option<Hash>)
    requires Run(c, inputs).Some?
    requires Apply(c, Run(c, inputs), st, pinned).Success? && Apply(c, Run(c, inputs), st, pinned).value.Fork?
    ensures var h, log, s := Run(c, inputs).value, LogOf(c, inputs), st.core.sequence;
      && 0 < s < |log|
      && DoubleSigned(c, KeysAt(Cores(log), s), st, log[s])
      && Apply(c, Run(c, inputs), st, pinned) == Success(Fork(h.(forked := true)))
  {
    var h, log, s := Run(c, inputs).value, LogOf(c, inputs), st.core.sequence;
    ReachableHeads(c, inputs);
    KeysBeforeVerified(c, inputs, s);
    assert LinkedAt(c, log, s);
    assert h.applied[s] == c.hash(Cores(log)[s]);
    TwoQuorums(c, KeysAt(Cores(log), s), st, log[s]);
  }

  // ---------------------------------------------------------------- agreement

  ghost predicate SamePrefix(a: seq<Statement>, b: seq<Statement>, n: nat) {
    n <= |a| && n <= |b| && forall i :: 0 <= i < n ==> a[i].core == b[i].core
  }

  /** The chains part at `s`, where a quorum of the keys both had in force signed twice. */
  ghost predicate PartAt(c: Crypto, a: seq<Statement>, b: seq<Statement>, s: nat) {
    && 0 < s < |a| && s < |b|
    && SamePrefix(a, b, s)
    && DoubleSigned(c, KeysAt(Cores(a), s), a[s], b[s])
  }

  lemma {:induction false} PartingIsSignedTwice(c: Crypto, a: seq<Statement>, b: seq<Statement>, n: nat)
    requires Linked(c, a) && Linked(c, b)
    requires 0 < n < |a| && n < |b| && SamePrefix(a, b, n) && a[n].core != b[n].core
    ensures PartAt(c, a, b, n)
  {
    assert LinkedAt(c, a, n) && LinkedAt(c, b, n);
    assert Cores(a)[..n] == Cores(b)[..n];
    KeysAtPrefix(Cores(a), Cores(b), n);
    TwoQuorums(c, KeysAt(Cores(a), n), a[n], b[n]);
  }

  /** Two chains from one genesis are one chain, or at the place they part four of the ten key
      slots in force signed two different statements. */
  lemma {:induction false} ChainsAgree(c: Crypto, a: seq<Statement>, b: seq<Statement>, n: nat)
    requires Good(c, a) && Good(c, b) && a != [] && b != []
    requires 0 < n <= |a| && n <= |b| && SamePrefix(a, b, n)
    ensures SamePrefix(a, b, |a|) || SamePrefix(a, b, |b|) || exists s :: PartAt(c, a, b, s)
    decreases |a| - n
  {
    if n < |a| && n < |b| {
      if a[n].core == b[n].core {
        ChainsAgree(c, a, b, n + 1);
      } else {
        FoldDescribed(c, a);
        FoldDescribed(c, b);
        PartingIsSignedTwice(c, a, b, n);
      }
    }
  }

  /** Two different statements of these logs with one hash. */
  ghost predicate Collision(c: Crypto, a: seq<Statement>, b: seq<Statement>) {
    exists i, j :: 0 <= i < |a| && 0 <= j < |b| && a[i].core != b[j].core && c.hash(a[i].core) == c.hash(b[j].core)
  }

  /** Nodes pinned to one genesis hash: after any two runs, one applied chain extends the other, or
      four slots of one key set signed twice, or the hash function collides on applied statements. */
  lemma {:induction false} NodesAgree(c: Crypto, x: seq<Input>, y: seq<Input>, genesis: Hash)
    requires Run(c, x).Some? && Run(c, y).Some?
    requires Run(c, x).value.applied[0] == genesis == Run(c, y).value.applied[0]
    ensures var a, b := LogOf(c, x), LogOf(c, y);
      || SamePrefix(a, b, |a|) || SamePrefix(a, b, |b|)
      || (exists s :: PartAt(c, a, b, s)) || Collision(c, a, b)
  {
    hide Check;
    hide Run;
    hide LogOf;
    hide Fold;
    hide PartAt;
    var a, b := LogOf(c, x), LogOf(c, y);
    RunIsFold(c, x);
    RunIsFold(c, y);
    ReachableHeads(c, x);
    ReachableHeads(c, y);
    assert c.hash(Cores(a)[0]) == c.hash(Cores(b)[0]);
    if a[0].core == b[0].core {
      ChainsAgree(c, a, b, 1);
    }
  }

  /** Equal head hashes force equal chains, walking back through the `previous` links. */
  lemma {:induction false} HashForcesChain(c: Crypto, a: seq<Statement>, b: seq<Statement>, i: nat, j: nat)
    requires Linked(c, a) && Linked(c, b) && i < |a| && j < |b|
    requires c.hash(a[i].core) == c.hash(b[j].core)
    ensures (i == j && SamePrefix(a, b, i + 1)) || Collision(c, a, b)
    decreases i
  {
    if a[i].core == b[j].core {
      assert LinkedAt(c, a, i) && LinkedAt(c, b, j);
      if i > 0 {
        HashForcesChain(c, a, b, i - 1, j - 1);
      }
    }
  }

  /** The head hash determines the state: heads of any two runs with one hash agree on everything but
      `forked`, unless the hash function collides on applied statements. */
  lemma {:induction false} HeadHashDeterminesState(c: Crypto, x: seq<Input>, y: seq<Input>)
    requires Run(c, x).Some? && Run(c, y).Some? && Run(c, x).value.hash == Run(c, y).value.hash
    ensures Unforked(Run(c, x).value) == Unforked(Run(c, y).value) || Collision(c, LogOf(c, x), LogOf(c, y))
  {
    hide Check;
    hide Run;
    hide LogOf;
    var a, b := LogOf(c, x), LogOf(c, y);
    ReachableHeads(c, x);
    ReachableHeads(c, y);
    HashForcesChain(c, a, b, |a| - 1, |b| - 1);
    if !Collision(c, a, b) {
      assert Cores(a) == Cores(b);
      DescribesUnique(c, Run(c, x).value, Run(c, y).value, Cores(a));
    }
  }

  // ---------------------------------------------------------------- monotonicity and terminality

  /** What no continuation can take back. */
  ghost predicate Extends(h: Head, later: Head) {
    && h.networkId == later.networkId
    && h.applied <= later.applied
    && h.keyEpochs <= later.keyEpochs
    && Elems(h.revoked) <= Elems(later.revoked)
    && (h.activatedAt.Some? ==> later.activatedAt == h.activatedAt)
    && (h.deadAt.Some? ==> Unforked(later) == Unforked(h))
    && (h.forked ==> later.forked)
    && Elems(later.roster) !! Elems(later.revoked)
  }

  lemma {:induction false} RosterMeetsNoRevoked(h: Head)
    requires Check(h)
    ensures Elems(h.roster) !! Elems(h.revoked)
  {
  }

  lemma {:induction false} StepExtends(c: Crypto, h: Head, input: Input)
    requires Check(h)
    ensures Step(c, Some(h), input).Some? && Extends(h, Step(c, Some(h), input).value)
    ensures h.forked && Step(c, Some(h), input).value != h ==>
      && ChainedDeath(h, input.statement.core)
      && Step(c, Some(h), input).value.deadAt == Some(h.sequence + 1)
      && Step(c, Some(h), input).value.forked
    ensures h.deadAt.Some? ==>
      && Step(c, Some(h), input).value == h
      && Apply(c, Some(h), input.statement, input.pinned) in {Success(AlreadyApplied), Failure(Terminal)}
  {
    var next := Step(c, Some(h), input).value;
    RosterMeetsNoRevoked(next);
    var r := Apply(c, Some(h), input.statement, input.pinned);
    AdjacentIsStrict(h.revoked);
    if r.Success? && r.value.Applied? && input.statement.core.body.Revocation? {
      InsertAllSorted(h.revoked, input.statement.core.body.members);
    }
  }

  lemma {:induction false} ExtendsTransitive(a: Head, b: Head, c: Head)
    requires Extends(a, b) && Extends(b, c)
    ensures Extends(a, c)
  {
    assert a.applied == c.applied[..|a.applied|];
    assert a.keyEpochs == c.keyEpochs[..|a.keyEpochs|];
  }

  /** Along every run nothing is taken back: the applied list and the epochs only extend, revoked keys
      stay revoked and off the roster, and activation, death and the fork fence never revert. */
  lemma {:induction false} RunsExtend(c: Crypto, inputs: seq<Input>, n: nat)
    requires n <= |inputs| && Run(c, inputs[..n]).Some?
    ensures Run(c, inputs).Some? && Extends(Run(c, inputs[..n]).value, Run(c, inputs).value)
    decreases |inputs| - n
  {
    var h := Run(c, inputs[..n]).value;
    if n == |inputs| {
      assert inputs[..n] == inputs;
      RosterMeetsNoRevoked(h);
    } else {
      assert inputs[..n + 1][..n] == inputs[..n];
      StepExtends(c, h, inputs[n]);
      RunsExtend(c, inputs, n + 1);
      ExtendsTransitive(h, Run(c, inputs[..n + 1]).value, Run(c, inputs).value);
    }
  }

  /** A key that was ever revoked is admitted by no later head once the network is active. */
  lemma {:induction false} RevokedNeverAdmitted(c: Crypto, inputs: seq<Input>, n: nat, key: Key)
    requires n <= |inputs| && Run(c, inputs[..n]).Some? && key in Run(c, inputs[..n]).value.revoked
    ensures Run(c, inputs).Some? && key !in Run(c, inputs).value.roster
    ensures Run(c, inputs).value.activatedAt.Some? ==> !Run(c, inputs).value.Admits(key)
  {
    RunsExtend(c, inputs, n);
    assert key in Elems(Run(c, inputs[..n]).value.revoked);
    assert key in Elems(Run(c, inputs).value.revoked);
    assert key !in Elems(Run(c, inputs).value.roster);
  }

  // ---------------------------------------------------------------- encoded size

  /** Every statement `apply` applies encodes within 2777 bytes and decodes back to itself. */
  lemma {:induction false} AppliedStatementsEncode(c: Crypto, head: Option<Head>, st: Statement, pinned: Option<Hash>)
    requires head.Some? ==> Check(head.value)
    requires Apply(c, head, st, pinned).Success? && Apply(c, head, st, pinned).value.Applied?
    ensures |EncodeStatement(st)| <= 2777
    ensures Decode(EncodeStatement(st)) == Success(st)
  {
    AppliedSizes(c, head, st, pinned);
    SmallStatementsEncode(st);
  }

  lemma {:induction false} AppliedSizes(c: Crypto, head: Option<Head>, st: Statement, pinned: Option<Hash>)
    requires head.Some? ==> Check(head.value)
    requires Apply(c, head, st, pinned).Success? && Apply(c, head, st, pinned).value.Applied?
    ensures SmallBody(st.core.body) && |st.signatures| <= KEY_COUNT
  {
  }
}
