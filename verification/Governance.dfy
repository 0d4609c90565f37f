/** The chain head and the verification of one statement against it. */
module Governance {
  import opened Basics
  import opened Order
  import opened Statements

  const KEY_COUNT := 10
  const THRESHOLD := 7
  const MAX_REVOKED_PER_STATEMENT := 64
  const MAX_ROSTER := 1024
  const MAX_ADMITTED_PER_STATEMENT := 64

  /** The cryptography of one network, about which nothing is assumed: `point` is a decodable
      public key, `weak` one of small order, `verify` the strict signature check over a core and
      `hash` the hash of a core. Module CoreBytes gives the instance over encoded bytes. */
  datatype Crypto = Crypto(
    point: Key -> bool,
    weak: Key -> bool,
    verify: (Key, Core, Signature) -> bool,
    hash: Core -> Hash)
  {
    predicate Strong(key: Key) {
      point(key) && !weak(key)
    }
  }

  datatype Head = Head(
    networkId: Bytes32,
    sequence: nat,
    hash: Hash,
    threshold: Byte,
    keyEpochs: seq<(nat, seq<Key>)>,
    revoked: seq<Key>,
    applied: seq<Hash>,
    forked: bool,
    roster: seq<Key>,
    activatedAt: Option<nat>,
    deadAt: Option<nat>)
  {
    /** Whether `own` may act as a member: everybody before activation. */
    predicate Admits(own: Key) {
      activatedAt.None? || (own in roster && own !in revoked)
    }

    function Keys(): seq<Key>
      requires keyEpochs != []
    {
      keyEpochs[|keyEpochs| - 1].1
    }
  }

  datatype Outcome = Applied(head: Head) | AlreadyApplied | Fork(head: Head)

  predicate Distinct<T(==)>(s: seq<T>) {
    forall i, j :: 0 <= i < j < |s| ==> s[i] != s[j]
  }

  /** The structural invariants the daemon checks before it stores a head or uses a stored one. */
  predicate Check(h: Head) {
    && h.threshold == THRESHOLD
    && |h.applied| == h.sequence + 1
    && h.applied[h.sequence] == h.hash
    && h.keyEpochs != []
    && h.keyEpochs[0].0 == 0
    && (forall i :: 0 <= i < |h.keyEpochs| - 1 ==> h.keyEpochs[i].0 < h.keyEpochs[i + 1].0)
    && h.keyEpochs[|h.keyEpochs| - 1].0 <= h.sequence
    && (forall i :: 0 <= i < |h.keyEpochs| ==> |h.keyEpochs[i].1| == KEY_COUNT && Distinct(h.keyEpochs[i].1))
    && AdjacentSorted(h.revoked)
    && |h.roster| <= MAX_ROSTER
    && AdjacentSorted(h.roster)
    && (forall k :: k in h.roster ==> k !in h.revoked)
    && (h.activatedAt.Some? ==> h.activatedAt.value <= h.sequence)
    && (h.deadAt.Some? ==> h.deadAt.value == h.sequence)
  }

  /** The keys of the last epoch set before `sequence`. */
  function KeysBefore(epochs: seq<(nat, seq<Key>)>, sequence: nat): seq<Key>
    requires epochs != [] && epochs[0].0 < sequence
  {
    var last := epochs[|epochs| - 1];
    if last.0 < sequence then last.1 else KeysBefore(epochs[..|epochs| - 1], sequence)
  }

  // ---------------------------------------------------------------- body and signature rules

  predicate GenesisValid(c: Crypto, threshold: Byte, keys: seq<Key>) {
    && threshold == THRESHOLD
    && |keys| == KEY_COUNT
    && (forall i :: 0 <= i < |keys| ==> c.Strong(keys[i]))
    && Distinct(keys)
  }

  predicate Increasing<T>(entries: seq<(Byte, T)>) {
    forall i, j :: 0 <= i < j < |entries| ==> entries[i].0 < entries[j].0
  }

  /** One signature: a strong key of the set, and a valid signature by it over `core`. */
  predicate SignatureValid(c: Crypto, sig: (Byte, Signature), core: Core, keys: seq<Key>) {
    sig.0 < |keys| && c.Strong(keys[sig.0]) && c.verify(keys[sig.0], core, sig.1)
  }

  predicate QuorumSigned(c: Crypto, sigs: seq<(Byte, Signature)>, core: Core, keys: seq<Key>, threshold: nat) {
    && threshold <= |sigs| <= |keys|
    && Increasing(sigs)
    && (forall i :: 0 <= i < |sigs| ==> SignatureValid(c, sigs[i], core, keys))
  }

  predicate SignaturesValid(c: Crypto, st: Statement, keys: seq<Key>, threshold: nat) {
    QuorumSigned(c, st.signatures, st.core, keys, threshold)
  }

  /** `keys` with each entry's key written into its slot, in order. */
  function Overlay(keys: seq<Key>, entries: seq<(Byte, Key)>): (r: seq<Key>)
    requires forall i :: 0 <= i < |entries| ==> entries[i].0 < |keys|
    ensures |r| == |keys|
  {
    if entries == [] then keys
    else
      var last := entries[|entries| - 1];
      Overlay(keys, entries[..|entries| - 1])[last.0 := last.1]
  }

  predicate RotationValid(c: Crypto, current: seq<Key>, entries: seq<(Byte, Key)>)
    requires |current| == KEY_COUNT
  {
    && 1 <= |entries| <= KEY_COUNT
    && Increasing(entries)
    && (forall i :: 0 <= i < |entries| ==> entries[i].0 < KEY_COUNT && c.Strong(entries[i].1))
    && Distinct(Overlay(current, entries))
    && (forall i :: 0 <= i < |entries| ==> current[entries[i].0] != entries[i].1)
  }

  predicate RevocationValid(c: Crypto, keys: seq<Key>) {
    && 1 <= |keys| <= MAX_REVOKED_PER_STATEMENT
    && AdjacentSorted(keys)
    && (forall i :: 0 <= i < |keys| ==> c.point(keys[i]))
  }

  predicate AdmissionValid(c: Crypto, revoked: seq<Key>, roster: seq<Key>, keys: seq<Key>) {
    && 1 <= |keys| <= MAX_ADMITTED_PER_STATEMENT
    && AdjacentSorted(keys)
    && (forall i :: 0 <= i < |keys| ==> c.Strong(keys[i]) && keys[i] !in revoked && keys[i] !in roster)
    && |roster| + |keys| <= MAX_ROSTER
  }

  /** Whether the body may follow `h`. */
  predicate BodyValid(c: Crypto, h: Head, body: Body)
    requires Check(h)
  {
    match body
    case Genesis(_, _) => false
    case Rotation(entries) => RotationValid(c, h.Keys(), entries)
    case Revocation(keys) => RevocationValid(c, keys)
    case Admission(keys) => AdmissionValid(c, h.revoked, h.roster, keys)
    case Activation => h.activatedAt.None?
    case Death => true
  }

  /** The head after a valid body. */
  function Follow(c: Crypto, h: Head, core: Core): Head
    requires Check(h) && BodyValid(c, h, core.body)
  {
    var hash := c.hash(core);
    var next := h.(sequence := core.sequence, hash := hash, applied := h.applied + [hash]);
    match core.body
    case Rotation(entries) => next.(keyEpochs := h.keyEpochs + [(core.sequence, Overlay(h.Keys(), entries))])
    case Revocation(keys) => next.(revoked := InsertAll(h.revoked, keys), roster := RemoveAll(h.roster, keys))
    case Admission(keys) => next.(roster := InsertAll(h.roster, keys))
    case Activation => next.(activatedAt := Some(core.sequence))
    case Death => next.(deadAt := Some(core.sequence))
  }

  function FirstHead(c: Crypto, core: Core): Head
    requires core.body.Genesis?
  {
    var hash := c.hash(core);
    Head(core.networkId, 0, hash, core.body.threshold, [(0, core.body.keys)], [], [hash], false, [], None, None)
  }

  function ApplyGenesis(c: Crypto, st: Statement, pinned: Option<Hash>): Result<Outcome, GovError> {
    var core := st.core;
    if !core.body.Genesis? then Failure(NoGenesis)
    else if core.sequence != 0 || core.previous != Zeros(32) then Failure(OutOfOrder)
    else if pinned != Some(c.hash(core)) then Failure(GenesisMismatch)
    else if !GenesisValid(c, core.body.threshold, core.body.keys) then Failure(BodyRule)
    else if !SignaturesValid(c, st, core.body.keys, core.body.threshold) then Failure(Signatures)
    else Success(Applied(FirstHead(c, core)))
  }

  /** A death that chains to the head itself: all a forked head accepts. */
  predicate ChainedDeath(h: Head, core: Core) {
    core.body.Death? && core.sequence == h.sequence + 1 && core.previous == h.hash
  }

  function Apply(c: Crypto, head: Option<Head>, st: Statement, pinned: Option<Hash>): Result<Outcome, GovError>
    requires head.Some? ==> Check(head.value)
  {
    var core := st.core;
    if head.None? then ApplyGenesis(c, st, pinned)
    else
      var h := head.value;
      if h.deadAt.Some? then
        if core.sequence <= h.sequence && h.applied[core.sequence] == c.hash(core) && core.networkId == h.networkId
        then Success(AlreadyApplied)
        else Failure(Terminal)
      else if h.forked && !ChainedDeath(h, core) then Failure(Forked)
      else if core.networkId != h.networkId then Failure(WrongNetwork)
      else if core.sequence <= h.sequence then
        if h.applied[core.sequence] == c.hash(core) then Success(AlreadyApplied)
        else if core.sequence == 0 then Failure(GenesisMismatch)
        else if !SignaturesValid(c, st, KeysBefore(h.keyEpochs, core.sequence), h.threshold) then Failure(Signatures)
        else Success(Fork(h.(forked := true)))
      else if core.sequence != h.sequence + 1 then Failure(OutOfOrder)
      else if core.previous != h.hash then Failure(PreviousMismatch)
      else if !SignaturesValid(c, st, h.Keys(), h.threshold) then Failure(Signatures)
      else if core.body.Genesis? then Failure(OutOfOrder)
      else if !BodyValid(c, h, core.body) then Failure(BodyRule)
      else Success(Applied(Follow(c, h, core)))
  }

  // ---------------------------------------------------------------- preservation

  lemma {:induction false} OverlayEpoch(h: Head, setAt: nat, keys: seq<Key>)
    requires Check(h) && setAt > h.sequence && |keys| == KEY_COUNT && Distinct(keys)
    ensures var e := h.keyEpochs + [(setAt, keys)];
      && (forall i :: 0 <= i < |e| - 1 ==> e[i].0 < e[i + 1].0)
      && (forall i :: 0 <= i < |e| ==> |e[i].1| == KEY_COUNT && Distinct(e[i].1))
  {
  }

  lemma {:induction false} FollowKeepsCheck(c: Crypto, h: Head, core: Core)
    requires Check(h) && BodyValid(c, h, core.body)
    requires h.deadAt.None? && core.sequence == h.sequence + 1
    ensures Check(Follow(c, h, core))
  {
    AdjacentIsStrict(h.revoked);
    AdjacentIsStrict(h.roster);
    var next := Follow(c, h, core);
    match core.body
    case Rotation(entries) => OverlayEpoch(h, core.sequence, Overlay(h.Keys(), entries));
    case Revocation(keys) =>
      InsertAllSorted(h.revoked, keys);
      RemoveAllSorted(h.roster, keys);
      AdjacentIsStrict(next.revoked);
      AdjacentIsStrict(next.roster);
      forall k | k in next.roster ensures k !in next.revoked {
        assert k in Elems(next.roster);
        assert k !in Elems(next.revoked);
      }
    case Admission(keys) =>
      InsertAllSorted(h.roster, keys);
      AdjacentIsStrict(next.roster);
      forall k | k in next.roster ensures k !in next.revoked {
        assert k in Elems(next.roster);
        assert k in h.roster || k in keys;
      }
    case Activation =>
    case Death =>
  }

  /** Whatever `apply` returns from a well-formed head is well formed again; with `Apply`'s own
      bounds checks this is why none of its lookups can panic. */
  lemma {:induction false} ApplyKeepsCheck(c: Crypto, head: Option<Head>, st: Statement, pinned: Option<Hash>)
    requires head.Some? ==> Check(head.value)
    ensures match Apply(c, head, st, pinned)
      case Success(Applied(next)) => Check(next)
      case Success(Fork(next)) => Check(next)
      case _ => true
  {
    if head.Some? && Apply(c, head, st, pinned).Success? && Apply(c, head, st, pinned).value.Applied? {
      FollowKeepsCheck(c, head.value, st.core);
    }
  }
}
