/** The answer to every statement a node can be offered, read off the statements it has applied. */
module ChainDecisions {
  import opened Basics
  import opened Order
  import opened Statements
  import opened Governance
  import opened Chains
  import opened ChainTheorems

  /** What a statement comes to on a chain. */
  datatype Verdict = Extending | Known | Forking | Refused(error: GovError)

  ghost predicate HasDied(cores: seq<Core>) {
    exists i :: 0 <= i < |cores| && cores[i].body.Death?
  }

  ghost predicate HasActivated(cores: seq<Core>) {
    exists i :: 0 <= i < |cores| && cores[i].body.Activation?
  }

  ghost function Members(cores: seq<Core>): set<Key> {
    AdmittedBy(cores) - RevokedBy(cores)
  }

  /** Whether the body may be the next one on the chain. */
  ghost predicate BodyAllowed(c: Crypto, cores: seq<Core>, body: Body)
    requires |KeysAt(cores, |cores|)| == KEY_COUNT
  {
    match body
    case Genesis(_, _) => false
    case Rotation(entries) => RotationValid(c, KeysAt(cores, |cores|), entries)
    case Revocation(keys) => RevocationValid(c, keys)
    case Admission(keys) =>
      && 1 <= |keys| <= 64 && StrictlySorted(keys)
      && (forall k :: k in keys ==> c.Strong(k) && k !in RevokedBy(cores) && k !in AdmittedBy(cores))
      && |Members(cores)| + |keys| <= 1024
    case Activation => !HasActivated(cores)
    case Death => true
  }

  /** The statement on the chain at the place of `core` has its hash. */
  ghost predicate OnRecord(c: Crypto, cores: seq<Core>, core: Core) {
    core.sequence < |cores| && c.hash(core) == c.hash(cores[core.sequence])
  }

  /** A statement for the place after the last one. */
  ghost function NextVerdict(c: Crypto, cores: seq<Core>, st: Statement): Verdict
    requires cores != [] && |KeysAt(cores, |cores|)| == KEY_COUNT
  {
    if st.core.previous != c.hash(cores[|cores| - 1]) then Refused(PreviousMismatch)
    else if !SignaturesValid(c, st, KeysAt(cores, |cores|), THRESHOLD) then Refused(Signatures)
    else if st.core.body.Genesis? then Refused(OutOfOrder)
    else if !BodyAllowed(c, cores, st.core.body) then Refused(BodyRule)
    else Extending
  }

  /** A statement for a place already taken by another. */
  ghost function RivalVerdict(c: Crypto, cores: seq<Core>, st: Statement): Verdict
    requires st.core.sequence < |cores|
  {
    if st.core.sequence == 0 then Refused(GenesisMismatch)
    else if !SignaturesValid(c, st, KeysAt(cores, st.core.sequence), THRESHOLD) then Refused(Signatures)
    else Forking
  }

  /** The verdict, given the chain and whether it is fenced. */
  ghost function VerdictOn(c: Crypto, cores: seq<Core>, fenced: bool, st: Statement): Verdict
    requires cores != [] && |KeysAt(cores, |cores|)| == KEY_COUNT
  {
    var core := st.core;
    var ours, next := core.networkId == cores[0].networkId, core.sequence == |cores|;
    if HasDied(cores) then if ours && OnRecord(c, cores, core) then Known else Refused(Terminal)
    else if fenced && !(core.body.Death? && next && core.previous == c.hash(cores[|cores| - 1])) then Refused(Forked)
    else if !ours then Refused(WrongNetwork)
    else if next then NextVerdict(c, cores, st)
    else if core.sequence > |cores| then Refused(OutOfOrder)
    else if OnRecord(c, cores, core) then Known
    else RivalVerdict(c, cores, st)
  }

  lemma {:induction false} SortedSize(s: seq<Bytes32>)
    requires StrictlySorted(s)
    ensures |Elems(s)| == |s|
  {
    if s != [] {
      TailSorted(s);
      SortedSize(s[1..]);
      SortedDistinct(s);
      assert s[0] !in s[1..];
      ElemsOfCons(s);
    }
  }

  /** The parts of a reachable head that decide, as the chain has them. */
  ghost predicate Reflects(c: Crypto, h: Head, cores: seq<Core>) {
    && Check(h) && cores != []
    && |h.applied| == |cores| == h.sequence + 1
    && (forall i :: 0 <= i < |cores| ==> h.applied[i] == c.hash(cores[i]))
    && h.networkId == cores[0].networkId && h.hash == c.hash(cores[|cores| - 1])
    && h.threshold == THRESHOLD
    && |KeysAt(cores, |cores|)| == KEY_COUNT && h.Keys() == KeysAt(cores, |cores|)
    && (forall s :: 0 < s < |cores| ==> KeysBefore(h.keyEpochs, s) == KeysAt(cores, s))
    && Elems(h.revoked) == RevokedBy(cores) && Elems(h.roster) == Members(cores)
    && (h.activatedAt.Some? <==> HasActivated(cores)) && (h.deadAt.Some? <==> HasDied(cores))
  }

  lemma {:induction false} ReachableReflects(c: Crypto, inputs: seq<Input>)
    requires Run(c, inputs).Some?
    ensures Reflects(c, Run(c, inputs).value, Cores(LogOf(c, inputs)))
  {
    hide Run;
    hide LogOf;
    hide Fold;
    hide Check;
    hide Stage;
    hide Linked;
    hide Describes;
    hide Reflects;
    var h, log := Run(c, inputs).value, LogOf(c, inputs);
    RunIsFold(c, inputs);
    FoldStage(c, log);
    ReachableHeads(c, inputs);
    StagedKeys(c, Unforked(h), log);
    DescribedReflects(c, h, log);
  }

  lemma {:induction false} StagedKeys(c: Crypto, h: Head, log: seq<Statement>)
    requires Stage(c, h, log)
    ensures log != [] && h.keyEpochs != [] && h.Keys() == KeysAt(Cores(log), |log|)
    ensures |KeysAt(Cores(log), |log|)| == KEY_COUNT
  {
    hide KeysAt;
    hide Describes;
    hide Linked;
  }

  lemma {:induction false} DescribedReflects(c: Crypto, h: Head, log: seq<Statement>)
    requires Check(h) && Describes(c, h, Cores(log)) && Linked(c, log) && log != []
    requires h.Keys() == KeysAt(Cores(log), |log|) && |KeysAt(Cores(log), |log|)| == KEY_COUNT
    ensures Reflects(c, h, Cores(log))
  {
    hide RevokedBy;
    hide AdmittedBy;
    hide Epochs;
    hide KeysAt;
    hide KeysBefore;
    forall s | 0 < s < |log| ensures KeysBefore(h.keyEpochs, s) == KeysAt(Cores(log), s) {
      LinkedKeys(c, log, s);
    }
    hide Linked;
    MarksShow(h, Cores(log));
    hide MarksOf;
    hide HasActivated;
    hide HasDied;
  }

  lemma {:induction false} MarksShow(h: Head, cores: seq<Core>)
    requires MarksOf(h, cores)
    ensures (h.activatedAt.Some? <==> HasActivated(cores)) && (h.deadAt.Some? <==> HasDied(cores))
  {
    if h.activatedAt.Some? {
      assert h.activatedAt == Some(h.activatedAt.value);
    }
    if h.deadAt.Some? {
      assert h.deadAt == Some(h.deadAt.value);
    }
    if HasActivated(cores) {
      var i :| 0 <= i < |cores| && cores[i].body.Activation?;
      assert h.activatedAt == Some(i);
    }
    if HasDied(cores) {
      var i :| 0 <= i < |cores| && cores[i].body.Death?;
      assert h.deadAt == Some(i);
    }
  }

  lemma {:induction false} AdmissionReflects(c: Crypto, h: Head, cores: seq<Core>, keys: seq<Key>)
    requires Reflects(c, h, cores)
    ensures AdmissionValid(c, h.revoked, h.roster, keys) == BodyAllowed(c, cores, Admission(keys))
  {
    AdjacentIsStrict(keys);
    AdjacentIsStrict(h.roster);
    SortedSize(h.roster);
    hide AdjacentSorted;
    hide StrictlySorted;
    hide KeysAt;
    hide KeysBefore;
    hide RevokedBy;
    hide AdmittedBy;
    forall k: Key ensures k in h.revoked <==> k in RevokedBy(cores) {
      assert k in h.revoked <==> k in Elems(h.revoked);
    }
    forall k: Key ensures k in h.roster <==> k in AdmittedBy(cores) && k !in RevokedBy(cores) {
      assert k in h.roster <==> k in Elems(h.roster);
    }
    hide Elems;
    assert forall i :: 0 <= i < |keys| ==> keys[i] in keys;
  }

  lemma {:induction false} BodiesReflect(c: Crypto, h: Head, cores: seq<Core>, body: Body)
    requires Reflects(c, h, cores)
    ensures BodyValid(c, h, body) == BodyAllowed(c, cores, body)
  {
    if body.Admission? {
      AdmissionReflects(c, h, cores, body.members);
    }
    hide AdmissionValid;
    hide RotationValid;
    hide RevocationValid;
    hide KeysAt;
    hide KeysBefore;
    hide RevokedBy;
    hide AdmittedBy;
  }

  ghost predicate AnswersAs(h: Head, r: Result<Outcome, GovError>, v: Verdict) {
    match v
    case Extending => r.Success? && r.value.Applied? && r.value.head.forked == h.forked
    case Known => r == Success(AlreadyApplied)
    case Forking => r == Success(Fork(h.(forked := true)))
    case Refused(e) => r == Failure(e)
  }

  lemma {:induction false} HeadAnswers(c: Crypto, h: Head, cores: seq<Core>, st: Statement, pinned: Option<Hash>)
    requires Reflects(c, h, cores)
    ensures AnswersAs(h, Apply(c, Some(h), st, pinned), VerdictOn(c, cores, h.forked, st))
  {
    BodiesReflect(c, h, cores, st.core.body);
    hide BodyValid;
    hide BodyAllowed;
    hide SignaturesValid;
    hide KeysAt;
    hide KeysBefore;
    hide HasActivated;
    hide HasDied;
    hide RevokedBy;
    hide AdmittedBy;
    assert st.core.sequence < |cores| ==> h.applied[st.core.sequence] == c.hash(cores[st.core.sequence]);
  }

  /** Every statement offered after every run gets the answer that the chain applied so far calls for; one
      that extends the chain leads to the head that the longer chain describes. */
  lemma {:induction false} EveryAnswer(c: Crypto, inputs: seq<Input>, st: Statement, pinned: Option<Hash>)
    requires Run(c, inputs).Some?
    ensures var h, log := Run(c, inputs).value, LogOf(c, inputs);
      && log != [] && |KeysAt(Cores(log), |log|)| == KEY_COUNT
      && var r, v := Apply(c, Some(h), st, pinned), VerdictOn(c, Cores(log), h.forked, st);
         AnswersAs(h, r, v) && (v.Extending? ==> Describes(c, r.value.head, Cores(log) + [st.core]))
  {
    var h, log := Run(c, inputs).value, LogOf(c, inputs);
    ReachableReflects(c, inputs);
    HeadAnswers(c, h, Cores(log), st, pinned);
    var r := Apply(c, Some(h), st, pinned);
    if r.Success? && r.value.Applied? {
      Extended(c, inputs, st, pinned);
    }
    hide Run;
    hide LogOf;
    hide Apply;
    hide VerdictOn;
    hide Describes;
    hide Reflects;
    assert Reflects(c, h, Cores(log)) ==> Cores(log) != [] && |KeysAt(Cores(log), |log|)| == KEY_COUNT by {
      ReflectsKeys(c, h, Cores(log));
    }
  }

  lemma {:induction false} ReflectsKeys(c: Crypto, h: Head, cores: seq<Core>)
    requires Reflects(c, h, cores)
    ensures cores != [] && |KeysAt(cores, |cores|)| == KEY_COUNT
  {
    hide KeysAt;
    hide KeysBefore;
  }

  lemma {:induction false} Extended(c: Crypto, inputs: seq<Input>, st: Statement, pinned: Option<Hash>)
    requires Run(c, inputs).Some?
    requires Apply(c, Run(c, inputs), st, pinned).Success? && Apply(c, Run(c, inputs), st, pinned).value.Applied?
    ensures Describes(c, Apply(c, Run(c, inputs), st, pinned).value.head, Cores(LogOf(c, inputs)) + [st.core])
  {
    var longer := inputs + [Input(st, pinned)];
    assert longer[..|longer| - 1] == inputs;
    ReachableHeads(c, longer);
    assert LogOf(c, longer) == LogOf(c, inputs) + [st];
    assert Cores(LogOf(c, longer)) == Cores(LogOf(c, inputs)) + [st.core];
  }

  /** A rival of an applied statement fences a living, unfenced node exactly when a quorum of the keys in
      force at its place signed it; otherwise it is refused for its signatures. */
  lemma {:induction false} ForksAreReported(c: Crypto, inputs: seq<Input>, st: Statement, pinned: Option<Hash>)
    requires Run(c, inputs).Some? && Run(c, inputs).value.deadAt.None? && !Run(c, inputs).value.forked
    requires st.core.networkId == Run(c, inputs).value.networkId
    requires 0 < st.core.sequence < |LogOf(c, inputs)|
    requires c.hash(st.core) != c.hash(LogOf(c, inputs)[st.core.sequence].core)
    ensures var h := Run(c, inputs).value;
      Apply(c, Some(h), st, pinned) ==
        if SignaturesValid(c, st, KeysAt(Cores(LogOf(c, inputs)), st.core.sequence), THRESHOLD)
        then Success(Fork(h.(forked := true)))
        else Failure(Signatures)
  {
    ReachableReflects(c, inputs);
    EveryAnswer(c, inputs, st, pinned);
    hide Run;
    hide LogOf;
    hide Apply;
    hide SignaturesValid;
    hide KeysAt;
    hide KeysBefore;
    hide HasDied;
    hide HasActivated;
    hide NextVerdict;
    hide Describes;
  }

  /** A fenced, living node takes exactly a death that chains to its own head and carries a quorum of the
      keys in force; it is then dead, and still fenced. */
  lemma {:induction false} FencedNodesDie(c: Crypto, inputs: seq<Input>, st: Statement, pinned: Option<Hash>)
    requires Run(c, inputs).Some? && Run(c, inputs).value.deadAt.None? && Run(c, inputs).value.forked
    ensures var h, log := Run(c, inputs).value, LogOf(c, inputs);
      var r := Apply(c, Some(h), st, pinned);
      && log != []
      && (r.Success? <==>
            && st.core.body.Death? && st.core.networkId == h.networkId
            && st.core.sequence == |log| && st.core.previous == c.hash(log[|log| - 1].core)
            && SignaturesValid(c, st, KeysAt(Cores(log), |log|), THRESHOLD))
      && (r.Success? ==> r.value.Applied? && r.value.head.deadAt == Some(|log|) && r.value.head.forked)
  {
    ReachableReflects(c, inputs);
    EveryAnswer(c, inputs, st, pinned);
    var h, log := Run(c, inputs).value, LogOf(c, inputs);
    var r := Apply(c, Some(h), st, pinned);
    hide Run;
    hide LogOf;
    hide Apply;
    hide SignaturesValid;
    hide KeysAt;
    hide KeysBefore;
    hide HasDied;
    hide HasActivated;
    hide RivalVerdict;
    hide Epochs;
    hide RevokedBy;
    hide AdmittedBy;
    if r.Success? {
      assert (Cores(log) + [st.core])[|log|].body.Death?;
    }
  }

  /** A node counts as admitted before activation always, and after it exactly when its key was admitted and
      never revoked. */
  lemma {:induction false} AdmittedExactly(c: Crypto, inputs: seq<Input>, key: Key)
    requires Run(c, inputs).Some?
    ensures Run(c, inputs).value.Admits(key) <==>
      !HasActivated(Cores(LogOf(c, inputs))) || key in Members(Cores(LogOf(c, inputs)))
  {
    ReachableReflects(c, inputs);
    hide Run;
    hide LogOf;
    hide KeysAt;
    hide KeysBefore;
    hide HasActivated;
    hide RevokedBy;
    hide AdmittedBy;
    var h := Run(c, inputs).value;
    assert key in h.roster <==> key in Elems(h.roster);
    assert key in h.revoked <==> key in Elems(h.revoked);
  }

  /** Without a head a node takes exactly the genesis it is pinned to: ten distinct strong keys, threshold
      seven, and a quorum of those very keys. */
  lemma {:induction false} FirstAnswer(c: Crypto, st: Statement, pinned: Option<Hash>)
    ensures var r := Apply(c, None, st, pinned);
      && (r.Success? <==>
            && st.core.body.Genesis? && st.core.sequence == 0 && st.core.previous == Zeros(32)
            && pinned == Some(c.hash(st.core))
            && st.core.body.threshold == 7 && KeysGood(c, st.core.body.keys)
            && SignaturesValid(c, st, st.core.body.keys, 7))
      && (r.Success? ==> r.value.Applied? && !r.value.head.forked && Describes(c, r.value.head, [st.core]))
  {
    var r := Apply(c, None, st, pinned);
    if r.Success? {
      var longer := [Input(st, pinned)];
      assert longer[..0] == [] && Run(c, []) == None;
      ReachableHeads(c, longer);
      assert LogOf(c, longer[..0]) == [];
      assert LogOf(c, longer) == [st];
      assert Cores([st]) == [st.core];
    }
    hide Describes;
  }
}
