/** The offline signing ceremony: drafts, signature parts, combined statements and replay. */
module Ceremony {
  import opened Basics
  import opened Order
  import opened Statements
  import opened Governance
  import opened GovernanceSteps
  import opened Chains
  import opened ChainTheorems
  import opened GovernanceDocument

  // ---------------------------------------------------------------- drafts

  function KeyRank(k: Key): seq<int> {
    k
  }

  function SlotRank<T>(e: (Byte, T)): seq<int> {
    [e.0]
  }

  /** `dedup`: adjacent repeats are dropped. */
  function Dedup(ks: seq<Key>): (r: seq<Key>)
    ensures Elems(r) == Elems(ks)
  {
    if |ks| <= 1 then ks
    else
      assert Elems(ks) == {ks[0]} + Elems(ks[1..]);
      if ks[0] == ks[1] then
        assert ks[1..][0] == ks[0] && ks[0] in Elems(ks[1..]);
        Dedup(ks[1..])
      else
        var t := Dedup(ks[1..]);
        assert Elems([ks[0]] + t) == {ks[0]} + Elems(t);
        [ks[0]] + t
  }

  function NormalKeys(ks: seq<Key>): seq<Key> {
    Dedup(SortBy(KeyRank, ks))
  }

  function NormalBody(body: Body): Body {
    match body
    case Revocation(ks) => Revocation(NormalKeys(ks))
    case Admission(ks) => Admission(NormalKeys(ks))
    case Rotation(entries) => Rotation(SortBy(SlotRank, entries))
    case _ => body
  }

  /** The unsigned statement following `previous`. */
  function DraftAfter(c: Crypto, previous: Statement, body: Body): Statement
    requires previous.core.sequence < U64_MAX
  {
    Statement(
      Core(previous.core.networkId, previous.core.sequence + 1, c.hash(previous.core), NormalBody(body)), [])
  }

  lemma {:induction false} DedupSorted(ks: seq<Key>)
    requires SortedBy(KeyRank, ks)
    ensures StrictlySorted(Dedup(ks))
  {
    if |ks| > 1 {
      DedupSorted(ks[1..]);
      if ks[0] != ks[1] {
        var t := Dedup(ks[1..]);
        forall x | x in t ensures Less(ks[0], x) {
          assert x in Elems(t);
          var i :| 0 <= i < |ks[1..]| && ks[1..][i] == x;
          assert !Less(KeyRank(ks[1]), KeyRank(ks[0]));
          LessTotal(ks[0], ks[1]);
          if i > 0 {
            assert !Less(KeyRank(ks[i + 1]), KeyRank(ks[1]));
            LessTotal(ks[1], x);
            if x != ks[1] {
              LessTransitive(ks[0], ks[1], x);
            }
          }
        }
      }
    }
  }

  /** A normalised member list is the strictly sorted list of the same keys, so a draft does not
      depend on how the operator listed them. */
  lemma {:induction false} NormalKeysCanonical(ks: seq<Key>)
    ensures StrictlySorted(NormalKeys(ks)) && Elems(NormalKeys(ks)) == Elems(ks)
    ensures forall other :: Elems(other) == Elems(ks) ==> NormalKeys(other) == NormalKeys(ks)
  {
    NormalKeysSorted(ks);
    forall other | Elems(other) == Elems(ks) ensures NormalKeys(other) == NormalKeys(ks) {
      NormalKeysSorted(other);
      SortedUnique(NormalKeys(other), NormalKeys(ks));
    }
  }

  lemma {:induction false} NormalKeysSorted(ks: seq<Key>)
    ensures StrictlySorted(NormalKeys(ks)) && Elems(NormalKeys(ks)) == Elems(ks)
  {
    SortBySorted(KeyRank, ks);
    DedupSorted(SortBy(KeyRank, ks));
    forall x: Key ensures x in SortBy(KeyRank, ks) <==> x in ks {
      SameMembers(SortBy(KeyRank, ks), ks, x);
    }
  }

  // ---------------------------------------------------------------- parts

  datatype Part = Part(version: int, hash: string, index: Byte, signature: string)

  /** How the text of a part's signature is read. */
  type Reading = string -> Option<Signature>

  function UnhexSignature(text: string): Option<Signature> {
    var b :- Unhex(text, 64);
    Some(b)
  }

  /** The signatures of the parts, unless one signs another draft or is not hexadecimal. */
  function Gather(read: Reading, hash: string, parts: seq<Part>): Option<seq<(Byte, Signature)>> {
    if parts == [] then Some([])
    else
      var before :- Gather(read, hash, parts[..|parts| - 1]);
      var part := parts[|parts| - 1];
      if part.version != 1 || part.hash != hash then None
      else
        var signature :- read(part.signature);
        Some(before + [(part.index, signature)])
  }

  predicate RepeatsSlot<T>(sigs: seq<(Byte, T)>) {
    exists i :: 0 <= i < |sigs| - 1 && sigs[i].0 == sigs[i + 1].0
  }

  function Combine(c: Crypto, draft: Statement, parts: seq<Part>): Option<Statement> {
    var gathered :- Gather(UnhexSignature, Hex(c.hash(draft.core)), parts);
    var signatures := SortBy(SlotRank, gathered);
    if RepeatsSlot(signatures) then None else Some(Statement(draft.core, signatures))
  }

  method CombineParts(c: Crypto, draft: Statement, parts: seq<Part>) returns (r: Option<Statement>)
    ensures r == Combine(c, draft, parts)
  {
    var hash := Hex(c.hash(draft.core));
    var signatures: seq<(Byte, Signature)> := [];
    for i := 0 to |parts|
      invariant Gather(UnhexSignature, hash, parts[..i]) == Some(signatures)
    {
      assert parts[..i + 1][..i] == parts[..i];
      if parts[i].version != 1 || parts[i].hash != hash || UnhexSignature(parts[i].signature).None? {
        GatherFails(UnhexSignature, hash, parts, i + 1);
        return None;
      }
      signatures := signatures + [(parts[i].index, UnhexSignature(parts[i].signature).value)];
    }
    assert parts[..|parts|] == parts;
    signatures := SortBy(SlotRank, signatures);
    r := if RepeatsSlot(signatures) then None else Some(Statement(draft.core, signatures));
  }

  lemma {:induction false} GatherFails(read: Reading, hash: string, parts: seq<Part>, n: nat)
    requires n <= |parts| && Gather(read, hash, parts[..n]).None?
    ensures Gather(read, hash, parts).None?
    decreases |parts|
  {
    if n < |parts| {
      assert parts[..|parts| - 1][..n] == parts[..n];
      GatherFails(read, hash, parts[..|parts| - 1], n);
    } else {
      assert parts[..n] == parts;
    }
  }

  /** What holder `index` hands in: `sign_part` with the key of that slot. */
  ghost predicate Honest(c: Crypto, core: Core, keys: seq<Key>, part: Part) {
    HonestAs(UnhexSignature, c, Hex(c.hash(core)), core, keys, part)
  }

  ghost predicate HonestAs(read: Reading, c: Crypto, hash: string, core: Core, keys: seq<Key>, part: Part) {
    && part.version == 1
    && part.hash == hash
    && part.index < |keys|
    && read(part.signature).Some?
    && c.verify(keys[part.index], core, read(part.signature).value)
  }

  /** Signing as a slot yields an honest part. */
  lemma {:induction false} SignPart(c: Crypto, core: Core, keys: seq<Key>, index: Byte, signature: Signature)
    requires index < |keys| && c.verify(keys[index], core, signature)
    ensures Honest(c, core, keys, Part(1, Hex(c.hash(core)), index, Hex(signature)))
  {
    UnhexHex(signature);
  }

  /** What an honest part contributes. */
  function Contribution(read: Reading, part: Part): (Byte, Signature) {
    (part.index, match read(part.signature) case Some(b) => b case None => Zeros(64))
  }

  function Map<T, U>(f: T -> U, s: seq<T>): (r: seq<U>)
    ensures |r| == |s| && forall i :: 0 <= i < |s| ==> r[i] == f(s[i])
  {
    seq(|s|, i requires 0 <= i < |s| => f(s[i]))
  }

  ghost function Contributions(read: Reading, parts: seq<Part>): (r: seq<(Byte, Signature)>)
    ensures |r| == |parts| && forall i :: 0 <= i < |parts| ==> r[i] == Contribution(read, parts[i])
  {
    Map(part => Contribution(read, part), parts)
  }

  /** The part signs the draft with this hash, in text that can be read. */
  predicate Matches(read: Reading, hash: string, part: Part) {
    part.version == 1 && part.hash == hash && read(part.signature).Some?
  }

  lemma {:induction false} GatherExact(read: Reading, hash: string, parts: seq<Part>)
    ensures Gather(read, hash, parts) ==
      if forall i :: 0 <= i < |parts| ==> Matches(read, hash, parts[i])
      then Some(Contributions(read, parts))
      else None
  {
    if parts == [] {
      assert Contributions(read, parts) == [];
    } else {
      var init, last := parts[..|parts| - 1], parts[|parts| - 1];
      GatherExact(read, hash, init);
      assert forall i :: 0 <= i < |init| ==> init[i] == parts[i];
      assert Contributions(read, parts) == Contributions(read, init) + [Contribution(read, last)];
    }
  }

  lemma {:induction false} SlotLess(a: int, b: int)
    ensures Less([a], [b]) <==> a < b
  {
  }

  lemma {:induction false} SortedSlotsIncrease<T>(sigs: seq<(Byte, T)>)
    requires SortedBy(SlotRank, sigs) && DistinctBy(SlotRank, sigs)
    ensures Increasing(sigs) && !RepeatsSlot(sigs)
  {
    forall i, j | 0 <= i < j < |sigs| ensures sigs[i].0 < sigs[j].0 {
      assert !Less(SlotRank(sigs[j]), SlotRank(sigs[i])) && SlotRank(sigs[i]) != SlotRank(sigs[j]);
      SlotLess(sigs[j].0, sigs[i].0);
    }
  }

  lemma {:induction false} DistinctPermuted<T>(s: seq<(Byte, T)>, t: seq<(Byte, T)>)
    requires multiset(s) == multiset(t) && DistinctBy(SlotRank, s)
    ensures DistinctBy(SlotRank, t)
  {
    forall i, j | 0 <= i < j < |t| ensures SlotRank(t[i]) != SlotRank(t[j]) {
      if SlotRank(t[i]) == SlotRank(t[j]) {
        SameMembers(t, s, t[i]);
        SameMembers(t, s, t[j]);
        DistinctMeansOnce(SlotRank, s, t[i], t[j]);
        CountOfTwo(t, i, j);
        OnceInMultiset(s, t[i]);
      }
    }
  }

  lemma {:induction false} SortedRepeats<T>(sigs: seq<(Byte, T)>)
    requires SortedBy(SlotRank, sigs) && !DistinctBy(SlotRank, sigs)
    ensures RepeatsSlot(sigs)
  {
    var i, j :| 0 <= i < j < |sigs| && SlotRank(sigs[i]) == SlotRank(sigs[j]);
    assert SlotRank(sigs[i])[0] == SlotRank(sigs[j])[0];
    assert !Less(SlotRank(sigs[i + 1]), SlotRank(sigs[i]));
    SlotLess(sigs[i + 1].0, sigs[i].0);
    if i + 1 < j {
      assert !Less(SlotRank(sigs[j]), SlotRank(sigs[i + 1]));
      SlotLess(sigs[j].0, sigs[i + 1].0);
    }
  }

  /** Sorting brings repeated slots together, and no others. */
  lemma {:induction false} RepeatsIff<T>(sigs: seq<(Byte, T)>)
    ensures RepeatsSlot(SortBy(SlotRank, sigs)) <==> !DistinctBy(SlotRank, sigs)
  {
    var r := SortBy(SlotRank, sigs);
    SortBySorted(SlotRank, sigs);
    if DistinctBy(SlotRank, sigs) {
      DistinctPermuted(sigs, r);
      SortedSlotsIncrease(r);
    } else {
      if DistinctBy(SlotRank, r) {
        DistinctPermuted(r, sigs);
      }
      SortedRepeats(r);
    }
  }

  lemma {:induction false} OnceInMultiset<T>(s: seq<(Byte, T)>, x: (Byte, T))
    requires DistinctBy(SlotRank, s)
    ensures multiset(s)[x] <= 1
  {
    if s != [] {
      assert s == [s[0]] + s[1..];
      OnceInMultiset(s[1..], x);
      if x == s[0] {
        forall i | 0 <= i < |s[1..]| ensures s[1..][i] != x {
          assert SlotRank(s[0]) != SlotRank(s[i + 1]);
        }
        assert x !in s[1..];
      }
    }
  }

  ghost predicate DistinctSlots(parts: seq<Part>) {
    forall i, j :: 0 <= i < j < |parts| ==> parts[i].index != parts[j].index
  }

  /** Honest parts of distinct slots, in any order, combine into a statement with valid signatures. */
  lemma {:induction false} CombineHonest(c: Crypto, draft: Statement, keys: seq<Key>, parts: seq<Part>)
    requires KeysGood(c, keys) && THRESHOLD <= |parts| <= KEY_COUNT
    requires DistinctSlots(parts)
    requires forall i :: 0 <= i < |parts| ==> Honest(c, draft.core, keys, parts[i])
    ensures var st := Combine(c, draft, parts);
      st.Some? && st.value.core == draft.core && SignaturesValid(c, st.value, keys, THRESHOLD)
  {
    var hash := Hex(c.hash(draft.core));
    assert forall i :: 0 <= i < |parts| ==>
      Honest(c, draft.core, keys, parts[i]) ==> Matches(UnhexSignature, hash, parts[i]);
    GatherExact(UnhexSignature, hash, parts);
    QuorumOf(UnhexSignature, c, hash, draft.core, keys, parts);
  }

  lemma {:induction false} QuorumOf(
      read: Reading, c: Crypto, hash: string, core: Core, keys: seq<Key>, parts: seq<Part>)
    requires KeysGood(c, keys) && THRESHOLD <= |parts| <= KEY_COUNT
    requires DistinctSlots(parts)
    requires forall i :: 0 <= i < |parts| ==> HonestAs(read, c, hash, core, keys, parts[i])
    ensures var sigs := SortBy(SlotRank, Contributions(read, parts));
      !RepeatsSlot(sigs) && QuorumSigned(c, sigs, core, keys, THRESHOLD)
  {
    var g := Contributions(read, parts);
    ContributionsGood(read, c, hash, core, keys, parts);
    var sigs := SortBy(SlotRank, g);
    SortBySorted(SlotRank, g);
    DistinctPermuted(g, sigs);
    SortedSlotsIncrease(sigs);
    hide SortBy;
    hide SortedBy;
    hide DistinctBy;
    hide HonestAs;
    hide Contributions;
    hide SignatureValid;
    hide Increasing;
    hide RepeatsSlot;
    forall i | 0 <= i < |sigs| ensures SignatureValid(c, sigs[i], core, keys) {
      SameMembers(sigs, g, sigs[i]);
    }
  }

  lemma {:induction false} ContributionsGood(
      read: Reading, c: Crypto, hash: string, core: Core, keys: seq<Key>, parts: seq<Part>)
    requires KeysGood(c, keys) && DistinctSlots(parts)
    requires forall i :: 0 <= i < |parts| ==> HonestAs(read, c, hash, core, keys, parts[i])
    ensures DistinctBy(SlotRank, Contributions(read, parts))
    ensures forall s :: s in Contributions(read, parts) ==> SignatureValid(c, s, core, keys)
  {
    var g := Contributions(read, parts);
    forall i, j | 0 <= i < j < |g| ensures SlotRank(g[i]) != SlotRank(g[j]) {
      assert SlotRank(g[i])[0] == parts[i].index && SlotRank(g[j])[0] == parts[j].index;
    }
    forall s | s in g ensures SignatureValid(c, s, core, keys) {
      var j :| 0 <= j < |g| && g[j] == s;
      assert HonestAs(read, c, hash, core, keys, parts[j]);
    }
  }

  lemma {:induction false} MapWithout<T, U>(f: T -> U, s: seq<T>, i: nat)
    requires i < |s|
    ensures multiset(Map(f, s)) == multiset(Map(f, s[..i] + s[i + 1..])) + multiset{f(s[i])}
    ensures multiset(s) == multiset(s[..i] + s[i + 1..]) + multiset{s[i]}
  {
    var m := Map(f, s);
    assert Map(f, s[..i] + s[i + 1..]) == m[..i] + m[i + 1..];
    assert m == m[..i] + [m[i]] + m[i + 1..];
    assert s == s[..i] + [s[i]] + s[i + 1..];
  }

  lemma {:induction false} CancelOne<T>(x: multiset<T>, y: multiset<T>, e: T)
    requires x + multiset{e} == y + multiset{e}
    ensures x == y
  {
    assert x == x + multiset{e} - multiset{e};
    assert y == y + multiset{e} - multiset{e};
  }

  lemma {:induction false} MapMultiset<T, U>(f: T -> U, a: seq<T>, b: seq<T>)
    requires multiset(a) == multiset(b)
    ensures multiset(Map(f, a)) == multiset(Map(f, b))
    decreases |a|
  {
    SameLength(a, b);
    if a != [] {
      assert a[0] in multiset(b);
      var i :| 0 <= i < |b| && b[i] == a[0];
      MapWithout(f, a, 0);
      MapWithout(f, b, i);
      var a', b' := a[..0] + a[1..], b[..i] + b[i + 1..];
      CancelOne(multiset(a'), multiset(b'), a[0]);
      MapMultiset(f, a', b');
    }
  }

  lemma {:induction false} ContributionsDistinct(read: Reading, parts: seq<Part>)
    ensures DistinctBy(SlotRank, Contributions(read, parts)) <==> DistinctSlots(parts)
  {
    var g := Contributions(read, parts);
    forall i, j | 0 <= i < j < |g| ensures SlotRank(g[i]) == SlotRank(g[j]) <==> parts[i].index == parts[j].index {
      assert SlotRank(g[i])[0] == parts[i].index && SlotRank(g[j])[0] == parts[j].index;
    }
  }

  /** Combining succeeds exactly on readable parts of this draft from distinct slots. */
  lemma {:induction false} CombineExact(c: Crypto, draft: Statement, parts: seq<Part>)
    ensures Combine(c, draft, parts) ==
      if
        && (forall i :: 0 <= i < |parts| ==> Matches(UnhexSignature, Hex(c.hash(draft.core)), parts[i]))
        && DistinctSlots(parts)
      then Some(Statement(draft.core, SortBy(SlotRank, Contributions(UnhexSignature, parts))))
      else None
  {
    GatherExact(UnhexSignature, Hex(c.hash(draft.core)), parts);
    RepeatsIff(Contributions(UnhexSignature, parts));
    ContributionsDistinct(UnhexSignature, parts);
  }

  /** The order in which parts arrive does not matter, whatever the parts. */
  lemma {:induction false} CombineOrderFree(c: Crypto, draft: Statement, parts: seq<Part>, other: seq<Part>)
    requires multiset(parts) == multiset(other)
    ensures Combine(c, draft, parts) == Combine(c, draft, other)
  {
    CombineExact(c, draft, parts);
    CombineExact(c, draft, other);
    hide Combine;
    MatchesPermuted(UnhexSignature, Hex(c.hash(draft.core)), parts, other);
    ContributionsOrderFree(UnhexSignature, parts, other);
  }

  lemma {:induction false} MatchesPermuted(read: Reading, hash: string, parts: seq<Part>, other: seq<Part>)
    requires multiset(parts) == multiset(other)
    ensures (forall i :: 0 <= i < |parts| ==> Matches(read, hash, parts[i]))
      <==> (forall i :: 0 <= i < |other| ==> Matches(read, hash, other[i]))
  {
    forall part: Part ensures part in parts <==> part in other {
      SameMembers(parts, other, part);
    }
    forall i | 0 <= i < |parts| ensures parts[i] in other {
    }
    forall i | 0 <= i < |other| ensures other[i] in parts {
    }
  }

  lemma {:induction false} ContributionsOrderFree(read: Reading, parts: seq<Part>, other: seq<Part>)
    requires multiset(parts) == multiset(other)
    ensures DistinctSlots(parts) == DistinctSlots(other)
    ensures DistinctSlots(parts) ==>
      SortBy(SlotRank, Contributions(read, parts)) == SortBy(SlotRank, Contributions(read, other))
  {
    MapMultiset(part => Contribution(read, part), parts, other);
    var g, h := Contributions(read, parts), Contributions(read, other);
    ContributionsDistinct(read, parts);
    ContributionsDistinct(read, other);
    if DistinctBy(SlotRank, g) {
      DistinctPermuted(g, h);
      SortByCanonical(SlotRank, g, h);
    } else if DistinctBy(SlotRank, h) {
      DistinctPermuted(h, g);
    }
  }

  // ---------------------------------------------------------------- replay

  /** The inputs a replay feeds to `apply`. */
  ghost function Pinned(chain: seq<Statement>, genesis: Hash): (r: seq<Input>)
    ensures |r| == |chain|
  {
    seq(|chain|, i requires 0 <= i < |chain| => Input(chain[i], Some(genesis)))
  }

  /** The head reached so far, or `None` once a statement was refused or forked. */
  ghost function ReplayState(c: Crypto, chain: seq<Statement>, genesis: Hash): (r: Option<Option<Head>>)
    ensures r.Some? && r.value.Some? ==> Check(r.value.value)
  {
    if chain == [] then Some(None)
    else
      var head :- ReplayState(c, chain[..|chain| - 1], genesis);
      ReplayStep(c, head, chain[|chain| - 1], genesis)
  }

  ghost function ReplayStep(c: Crypto, head: Option<Head>, st: Statement, genesis: Hash): (r: Option<Option<Head>>)
    requires head.Some? ==> Check(head.value)
    ensures r.Some? && r.value.Some? ==> Check(r.value.value)
  {
    ApplyKeepsCheck(c, head, st, Some(genesis));
    match Apply(c, head, st, Some(genesis))
    case Success(Applied(next)) => Some(Some(next))
    case Success(AlreadyApplied) => Some(head)
    case _ => None
  }

  ghost predicate NotForked(head: Option<Head>) {
    head.Some? ==> !head.value.forked
  }

  lemma {:induction false} ReplayStepIsStep(c: Crypto, head: Option<Head>, st: Statement, genesis: Hash)
    requires (head.Some? ==> Check(head.value)) && ReplayStep(c, head, st, genesis).Some?
    ensures Step(c, head, Input(st, Some(genesis))) == ReplayStep(c, head, st, genesis).value
    ensures NotForked(head) ==> NotForked(ReplayStep(c, head, st, genesis).value)
  {
  }

  ghost function Replay(c: Crypto, chain: seq<Statement>, genesis: Hash): Option<Head> {
    var head :- ReplayState(c, chain, genesis);
    head
  }

  method ReplayChain(c: Crypto, chain: seq<Statement>, genesis: Hash) returns (r: Option<Head>)
    ensures r == Replay(c, chain, genesis)
  {
    var head: Option<Head> := None;
    for i := 0 to |chain|
      invariant ReplayState(c, chain[..i], genesis) == Some(head)
    {
      assert chain[..i + 1][..i] == chain[..i];
      var outcome := ApplyStatement(c, head, chain[i], Some(genesis));
      match outcome {
        case Success(Applied(next)) => head := Some(next);
        case Success(AlreadyApplied) =>
        case _ =>
          ReplayFails(c, chain, genesis, i + 1);
          return None;
      }
    }
    assert chain[..|chain|] == chain;
    r := head;
  }

  lemma {:induction false} ReplayFails(c: Crypto, chain: seq<Statement>, genesis: Hash, n: nat)
    requires n <= |chain| && ReplayState(c, chain[..n], genesis).None?
    ensures ReplayState(c, chain, genesis).None?
    decreases |chain|
  {
    if n < |chain| {
      assert chain[..|chain| - 1][..n] == chain[..n];
      ReplayFails(c, chain[..|chain| - 1], genesis, n);
    } else {
      assert chain[..n] == chain;
    }
  }

  /** A successful replay is a run of the node that never saw a fork. */
  lemma {:induction false} ReplayIsRun(c: Crypto, chain: seq<Statement>, genesis: Hash)
    requires ReplayState(c, chain, genesis).Some?
    ensures Run(c, Pinned(chain, genesis)) == ReplayState(c, chain, genesis).value
    ensures NotForked(Run(c, Pinned(chain, genesis)))
  {
    hide Apply;
    hide Check;
    if chain != [] {
      var init := chain[..|chain| - 1];
      ReplayIsRun(c, init, genesis);
      assert Pinned(chain, genesis)[..|chain| - 1] == Pinned(init, genesis);
      ReplayStepIsStep(c, ReplayState(c, init, genesis).value, chain[|chain| - 1], genesis);
    }
  }

  /** `st` is on record at its own sequence. */
  ghost predicate Known(c: Crypto, h: Head, st: Statement) {
    && st.core.networkId == h.networkId
    && st.core.sequence < |h.applied|
    && h.applied[st.core.sequence] == c.hash(st.core)
  }

  lemma {:induction false} KnownStep(c: Crypto, h: Head, st: Statement, genesis: Hash)
    requires Check(h) && Known(c, h, st) && !h.forked
    ensures ReplayStep(c, Some(h), st, genesis) == Some(Some(h))
  {
  }

  /** A replayed statement is on record afterwards, and so is everything that was before. */
  lemma {:induction false} StepKnows(c: Crypto, head: Option<Head>, st: Statement, genesis: Hash)
    requires (head.Some? ==> Check(head.value)) && ReplayStep(c, head, st, genesis).Some?
    ensures var next := ReplayStep(c, head, st, genesis).value;
      && next.Some? && Known(c, next.value, st)
      && (head.Some? ==> forall other :: Known(c, head.value, other) ==> Known(c, next.value, other))
  {
    if head.Some? {
      ReplayStepIsStep(c, head, st, genesis);
      StepExtends(c, head.value, Input(st, Some(genesis)));
    }
  }

  ghost predicate AllKnown(c: Crypto, head: Option<Head>, chain: seq<Statement>) {
    chain != [] ==> head.Some? && forall st :: st in chain ==> Known(c, head.value, st)
  }

  lemma {:induction false} StepKnowsAll(
      c: Crypto, head: Option<Head>, chain: seq<Statement>, st: Statement, genesis: Hash)
    requires (head.Some? ==> Check(head.value)) && ReplayStep(c, head, st, genesis).Some?
    requires AllKnown(c, head, chain)
    ensures AllKnown(c, ReplayStep(c, head, st, genesis).value, chain + [st])
  {
    StepKnows(c, head, st, genesis);
    forall x | x in chain + [st] ensures Known(c, ReplayStep(c, head, st, genesis).value.value, x) {
      if x in chain {
        assert Known(c, head.value, x);
      }
    }
  }

  lemma {:induction false} ReplayAppend(c: Crypto, chain: seq<Statement>, st: Statement, genesis: Hash)
    ensures ReplayState(c, chain + [st], genesis) ==
      match ReplayState(c, chain, genesis)
      case Some(head) => ReplayStep(c, head, st, genesis)
      case None => None
  {
    assert (chain + [st])[..|chain|] == chain;
  }

  lemma {:induction false} ReplayKnows(c: Crypto, chain: seq<Statement>, genesis: Hash)
    requires ReplayState(c, chain, genesis).Some?
    ensures AllKnown(c, ReplayState(c, chain, genesis).value, chain)
  {
    hide Check;
    hide ReplayStep;
    hide Known;
    if chain != [] {
      var init, st := chain[..|chain| - 1], chain[|chain| - 1];
      assert chain == init + [st];
      ReplayAppend(c, init, st, genesis);
      ReplayKnows(c, init, genesis);
      StepKnowsAll(c, ReplayState(c, init, genesis).value, init, st, genesis);
    }
  }

  /** Statements already on record leave the replay where it was. */
  lemma {:induction false} ReplayMore(c: Crypto, all: seq<Statement>, n: nat, m: nat, genesis: Hash, h: Head)
    requires n <= m <= |all|
    requires Check(h) && !h.forked && ReplayState(c, all[..n], genesis) == Some(Some(h))
    requires forall i :: n <= i < m ==> Known(c, h, all[i])
    ensures ReplayState(c, all[..m], genesis) == Some(Some(h))
    decreases m
  {
    hide Check;
    hide ReplayStep;
    hide Known;
    if n < m {
      ReplayMore(c, all, n, m - 1, genesis, h);
      KnownStep(c, h, all[m - 1], genesis);
      assert all[..m][..m - 1] == all[..m - 1];
    }
  }

  /** Replaying a chain after itself changes nothing. */
  lemma {:induction false} ReplayTwice(c: Crypto, chain: seq<Statement>, genesis: Hash)
    requires Replay(c, chain, genesis).Some?
    ensures Replay(c, chain + chain, genesis) == Replay(c, chain, genesis)
  {
    hide Check;
    hide ReplayState;
    hide Known;
    var n, all := |chain|, chain + chain;
    var h := Replay(c, chain, genesis).value;
    ReplayNotForked(c, chain, genesis);
    ReplayKnows(c, chain, genesis);
    assert all[..n] == chain && all[..|all|] == all;
    forall i | n <= i < |all| ensures Known(c, h, all[i]) {
      assert all[i] == chain[i - n];
    }
    ReplayMore(c, all, n, |all|, genesis, h);
  }

  lemma {:induction false} ReplayNotForked(c: Crypto, chain: seq<Statement>, genesis: Hash)
    requires ReplayState(c, chain, genesis).Some?
    ensures NotForked(ReplayState(c, chain, genesis).value)
  {
    ReplayIsRun(c, chain, genesis);
  }

  // ---------------------------------------------------------------- the ceremony

  /** The draft after the last applied statement of a replayed chain, signed by any 7 to 10 distinct
      current holders and combined in any order, is in its place and carries a quorum. */
  lemma {:induction false} CeremonySigns(
      c: Crypto, chain: seq<Statement>, genesis: Hash, last: Statement, body: Body, parts: seq<Part>)
    requires Replay(c, chain, genesis).Some?
    requires LogOf(c, Pinned(chain, genesis)) != []
    requires last == LogOf(c, Pinned(chain, genesis))[|LogOf(c, Pinned(chain, genesis))| - 1]
    requires THRESHOLD <= |parts| <= KEY_COUNT && DistinctSlots(parts)
    requires last.core.sequence < U64_MAX
    requires forall i :: 0 <= i < |parts| ==>
      Honest(c, DraftAfter(c, last, body).core, Replay(c, chain, genesis).value.Keys(), parts[i])
    ensures var h, draft := Replay(c, chain, genesis).value, DraftAfter(c, last, body);
      && Combine(c, draft, parts).Some? && Combine(c, draft, parts).value.core == draft.core
      && SignaturesValid(c, Combine(c, draft, parts).value, h.Keys(), THRESHOLD)
      && Check(h) && !h.forked && draft.core.networkId == h.networkId
      && draft.core.sequence == h.sequence + 1 && draft.core.previous == h.hash
  {
    hide Check;
    hide Run;
    hide LogOf;
    hide Fold;
    var inputs := Pinned(chain, genesis);
    ReplayIsRun(c, chain, genesis);
    var h, draft := Replay(c, chain, genesis).value, DraftAfter(c, last, body);
    var log := LogOf(c, inputs);
    RunIsFold(c, inputs);
    FoldStage(c, log);
    assert Unforked(h) == h;
    assert LinkedAt(c, log, |log| - 1);
    CombineHonest(c, draft, h.Keys(), parts);
  }
}
