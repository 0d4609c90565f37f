/** The loops of `apply`, proved against the rules and the transition of module Governance. */
module GovernanceSteps {
  import opened Basics
  import opened Order
  import opened Statements
  import opened Governance

  method AllDistinct(keys: seq<Key>) returns (ok: bool)
    ensures ok == Distinct(keys)
  {
    for i := 0 to |keys|
      invariant Distinct(keys[..i])
    {
      if keys[i] in keys[..i] {
        return false;
      }
    }
    assert keys[..|keys|] == keys;
    ok := true;
  }

  method CheckGenesis(c: Crypto, threshold: Byte, keys: seq<Key>) returns (ok: bool)
    ensures ok == GenesisValid(c, threshold, keys)
  {
    if threshold != THRESHOLD || |keys| != KEY_COUNT {
      return false;
    }
    for i := 0 to |keys|
      invariant forall j :: 0 <= j < i ==> c.Strong(keys[j])
      invariant Distinct(keys[..i])
    {
      if !c.Strong(keys[i]) || keys[i] in keys[..i] {
        return false;
      }
    }
    assert keys[..|keys|] == keys;
    ok := true;
  }

  method CheckSignatures(c: Crypto, st: Statement, keys: seq<Key>, threshold: nat) returns (ok: bool)
    ensures ok == SignaturesValid(c, st, keys, threshold)
  {
    ok := CheckQuorum(c, st.signatures, st.core, keys, threshold);
  }

  method CheckQuorum(c: Crypto, sigs: seq<(Byte, Signature)>, core: Core, keys: seq<Key>, threshold: nat)
    returns (ok: bool)
    ensures ok == QuorumSigned(c, sigs, core, keys, threshold)
  {
    if |sigs| < threshold || |sigs| > |keys| {
      return false;
    }
    var last: Option<Byte> := None;
    for i := 0 to |sigs|
      invariant Increasing(sigs[..i])
      invariant last == if i == 0 then None else Some(sigs[i - 1].0)
      invariant forall j :: 0 <= j < i ==> SignatureValid(c, sigs[j], core, keys)
    {
      var (index, signature) := sigs[i];
      if (last.Some? && last.value >= index) || index >= |keys| {
        assert last.Some? && last.value >= index ==> sigs[i - 1].0 >= sigs[i].0;
        assert !Increasing(sigs) || !SignatureValid(c, sigs[i], core, keys);
        return false;
      }
      last := Some(index);
      if !c.Strong(keys[index]) || !c.verify(keys[index], core, signature) {
        assert !SignatureValid(c, sigs[i], core, keys);
        return false;
      }
    }
    assert sigs[..|sigs|] == sigs;
    ok := true;
  }

  /** Writes the new keys into their slots; `None` for entries out of order, out of range or weak. */
  method OverlayEntries(c: Crypto, current: seq<Key>, entries: seq<(Byte, Key)>) returns (r: Option<seq<Key>>)
    requires |current| == KEY_COUNT
    ensures r.Some? <==>
      && Increasing(entries)
      && (forall i :: 0 <= i < |entries| ==> entries[i].0 < KEY_COUNT && c.Strong(entries[i].1))
    ensures r.Some? ==> r.value == Overlay(current, entries)
  {
    var keys := current;
    var last: Option<Byte> := None;
    for i := 0 to |entries|
      invariant Increasing(entries[..i])
      invariant last == if i == 0 then None else Some(entries[i - 1].0)
      invariant forall j :: 0 <= j < i ==> entries[j].0 < KEY_COUNT && c.Strong(entries[j].1)
      invariant keys == Overlay(current, entries[..i])
    {
      var (index, key) := entries[i];
      if (last.Some? && last.value >= index) || index >= KEY_COUNT {
        assert last.Some? && last.value >= index ==> entries[i - 1].0 >= entries[i].0;
        return None;
      }
      last := Some(index);
      if !c.Strong(key) {
        return None;
      }
      keys := keys[index := key];
      assert entries[..i + 1][..i] == entries[..i];
    }
    assert entries[..|entries|] == entries;
    r := Some(keys);
  }

  method Rotate(c: Crypto, current: seq<Key>, entries: seq<(Byte, Key)>) returns (r: Option<seq<Key>>)
    requires |current| == KEY_COUNT
    ensures r.Some? <==> RotationValid(c, current, entries)
    ensures r.Some? ==> r.value == Overlay(current, entries)
  {
    if entries == [] || |entries| > KEY_COUNT {
      return None;
    }
    var keys := OverlayEntries(c, current, entries);
    if keys.None? {
      return None;
    }
    var distinct := AllDistinct(keys.value);
    if !distinct {
      return None;
    }
    for i := 0 to |entries|
      invariant forall j :: 0 <= j < i ==> current[entries[j].0] != entries[j].1
    {
      if current[entries[i].0] == entries[i].1 {
        return None;
      }
    }
    r := keys;
  }

  /** Adds the revoked keys and takes them off the roster, one binary search each. */
  method Revoke(revoked0: seq<Key>, roster0: seq<Key>, keys: seq<Key>) returns (revoked: seq<Key>, roster: seq<Key>)
    requires StrictlySorted(revoked0) && StrictlySorted(roster0)
    ensures revoked == InsertAll(revoked0, keys)
    ensures roster == RemoveAll(roster0, keys)
  {
    revoked, roster := revoked0, roster0;
    for i := 0 to |keys|
      invariant revoked == InsertAll(revoked0, keys[..i])
      invariant roster == RemoveAll(roster0, keys[..i])
    {
      InsertAllSorted(revoked0, keys[..i]);
      RemoveAllSorted(roster0, keys[..i]);
      var found, at := BinarySearch(revoked, keys[i]);
      if !found {
        revoked := revoked[..at] + [keys[i]] + revoked[at..];
      } else {
        InsertPresent(revoked, keys[i]);
      }
      found, at := BinarySearch(roster, keys[i]);
      if found {
        roster := roster[..at] + roster[at + 1..];
      } else {
        RemoveAbsent(roster, keys[i]);
      }
      assert keys[..i + 1][..i] == keys[..i];
    }
    assert keys[..|keys|] == keys;
  }

  lemma {:induction false} InsertPresent(s: seq<Key>, k: Key)
    requires StrictlySorted(s) && k in s
    ensures Insert(s, k) == s
  {
    InsertSorted(s, k);
    assert k in Elems(s);
    SortedUnique(s, Insert(s, k));
  }

  lemma {:induction false} RemoveAbsent(s: seq<Key>, k: Key)
    requires StrictlySorted(s) && k !in s
    ensures Remove(s, k) == s
  {
    RemoveSorted(s, k);
    SortedUnique(s, Remove(s, k));
  }

  /** Inserts the admitted keys; the search never finds one, so the insertion point always exists. */
  method Admit(roster0: seq<Key>, keys: seq<Key>) returns (roster: seq<Key>)
    requires StrictlySorted(roster0) && AdjacentSorted(keys)
    requires forall i :: 0 <= i < |keys| ==> keys[i] !in roster0
    ensures roster == InsertAll(roster0, keys)
  {
    AdjacentIsStrict(keys);
    SortedDistinct(keys);
    roster := roster0;
    for i := 0 to |keys|
      invariant roster == InsertAll(roster0, keys[..i])
    {
      InsertAllSorted(roster0, keys[..i]);
      assert keys[i] !in Elems(roster0) + Elems(keys[..i]);
      var found, at := BinarySearch(roster, keys[i]);
      assert !found by {
        assert keys[i] !in Elems(roster);
      }
      roster := roster[..at] + [keys[i]] + roster[at..];
      assert keys[..i + 1][..i] == keys[..i];
    }
    assert keys[..|keys|] == keys;
  }

  method CheckAdmission(c: Crypto, revoked: seq<Key>, roster: seq<Key>, keys: seq<Key>) returns (ok: bool)
    requires StrictlySorted(revoked) && StrictlySorted(roster)
    ensures ok == AdmissionValid(c, revoked, roster, keys)
  {
    if keys == [] || |keys| > MAX_ADMITTED_PER_STATEMENT || !AdjacentSorted(keys) {
      return false;
    }
    for i := 0 to |keys|
      invariant forall j :: 0 <= j < i ==> c.Strong(keys[j]) && keys[j] !in revoked && keys[j] !in roster
    {
      if !c.Strong(keys[i]) {
        return false;
      }
      var inRevoked, _ := BinarySearch(revoked, keys[i]);
      var inRoster, _ := BinarySearch(roster, keys[i]);
      if inRevoked || inRoster {
        return false;
      }
    }
    ok := |roster| + |keys| <= MAX_ROSTER;
  }

  /** `apply`, statement by statement as the node runs it. */
  method ApplyStatement(c: Crypto, head: Option<Head>, st: Statement, pinned: Option<Hash>)
    returns (r: Result<Outcome, GovError>)
    requires head.Some? ==> Check(head.value)
    ensures r == Apply(c, head, st, pinned)
  {
    var core := st.core;
    if head.None? {
      if !core.body.Genesis? {
        return Failure(NoGenesis);
      }
      if core.sequence != 0 || core.previous != Zeros(32) {
        return Failure(OutOfOrder);
      }
      if pinned != Some(c.hash(core)) {
        return Failure(GenesisMismatch);
      }
      var genesis := CheckGenesis(c, core.body.threshold, core.body.keys);
      if !genesis {
        return Failure(BodyRule);
      }
      var signed := CheckSignatures(c, st, core.body.keys, core.body.threshold);
      return if signed then Success(Applied(FirstHead(c, core))) else Failure(Signatures);
    }
    var h := head.value;
    if h.deadAt.Some? {
      return if core.sequence <= h.sequence && h.applied[core.sequence] == c.hash(core)
                && core.networkId == h.networkId
        then Success(AlreadyApplied) else Failure(Terminal);
    }
    if h.forked && !(core.body.Death? && core.sequence == h.sequence + 1 && core.previous == h.hash) {
      return Failure(Forked);
    }
    if core.networkId != h.networkId {
      return Failure(WrongNetwork);
    }
    if core.sequence <= h.sequence {
      if h.applied[core.sequence] == c.hash(core) {
        return Success(AlreadyApplied);
      }
      if core.sequence == 0 {
        return Failure(GenesisMismatch);
      }
      var conflicting := CheckSignatures(c, st, KeysBefore(h.keyEpochs, core.sequence), h.threshold);
      return if conflicting then Success(Fork(h.(forked := true))) else Failure(Signatures);
    }
    if core.sequence != h.sequence + 1 {
      return Failure(OutOfOrder);
    }
    if core.previous != h.hash {
      return Failure(PreviousMismatch);
    }
    var signed := CheckSignatures(c, st, h.Keys(), h.threshold);
    if !signed {
      return Failure(Signatures);
    }
    r := ApplyBody(c, h, core);
  }

  method ApplyBody(c: Crypto, h: Head, core: Core) returns (r: Result<Outcome, GovError>)
    requires Check(h)
    ensures r == if core.body.Genesis? then Failure(OutOfOrder)
                 else if BodyValid(c, h, core.body) then Success(Applied(Follow(c, h, core)))
                 else Failure(BodyRule)
  {
    AdjacentIsStrict(h.revoked);
    AdjacentIsStrict(h.roster);
    var next := h;
    match core.body {
      case Genesis(_, _) => return Failure(OutOfOrder);
      case Rotation(entries) =>
        var keys := Rotate(c, h.Keys(), entries);
        if keys.None? {
          return Failure(BodyRule);
        }
        next := next.(keyEpochs := next.keyEpochs + [(core.sequence, keys.value)]);
      case Revocation(keys) =>
        if !RevocationValid(c, keys) {
          return Failure(BodyRule);
        }
        var revoked, roster := Revoke(h.revoked, h.roster, keys);
        next := next.(revoked := revoked, roster := roster);
      case Admission(keys) =>
        var ok := CheckAdmission(c, h.revoked, h.roster, keys);
        if !ok {
          return Failure(BodyRule);
        }
        var roster := Admit(h.roster, keys);
        next := next.(roster := roster);
      case Activation =>
        if h.activatedAt.Some? {
          return Failure(BodyRule);
        }
        next := next.(activatedAt := Some(core.sequence));
      case Death =>
        next := next.(deadAt := Some(core.sequence));
    }
    var hash := c.hash(core);
    next := next.(sequence := core.sequence, hash := hash, applied := next.applied + [hash]);
    r := Success(Applied(next));
  }
}
