/** What a ceremony achieves, in terms of the body the operator asked for. */
module CeremonyOutcomes {
  import opened Basics
  import opened Order
  import opened Statements
  import opened Governance
  import opened Chains
  import opened ChainTheorems
  import opened ChainDecisions
  import opened Ceremony
  import opened Rotations

  // ---------------------------------------------------------------- what may be asked

  /** `after` holds every entry's key in its slot, and every other slot as it was. */
  ghost predicate Places(keys: seq<Key>, entries: seq<(Byte, Key)>, after: seq<Key>) {
    && |after| == |keys|
    && (forall e :: e in entries ==> e.0 < |keys| && after[e.0] == e.1)
    && (forall i :: 0 <= i < |keys| && (forall e :: e in entries ==> e.0 != i) ==> after[i] == keys[i])
  }

  ghost predicate SlotsApart(entries: seq<(Byte, Key)>) {
    forall i, j :: 0 <= i < j < |entries| ==> entries[i].0 != entries[j].0
  }

  /** The rotation as listed: in any order, each slot once, new strong keys, and no key twice afterwards. */
  ghost predicate RotationAsked(c: Crypto, keys: seq<Key>, entries: seq<(Byte, Key)>) {
    && 1 <= |entries| <= 10 && SlotsApart(entries)
    && (forall e :: e in entries ==> e.0 < 10 && e.0 < |keys| && c.Strong(e.1) && keys[e.0] != e.1)
    && (forall after: seq<Key> :: Places(keys, entries, after) ==> Distinct(after))
  }

  /** The rules on the body asked for: lists in any order, repeats allowed among members. */
  ghost predicate Asked(c: Crypto, h: Head, body: Body)
    requires Check(h)
  {
    match body
    case Genesis(_, _) => false
    case Rotation(entries) => RotationAsked(c, h.Keys(), entries)
    case Revocation(ks) => 1 <= |Elems(ks)| <= 64 && forall k :: k in ks ==> c.point(k)
    case Admission(ks) =>
      && 1 <= |Elems(ks)| <= 64 && |h.roster| + |Elems(ks)| <= 1024
      && forall k :: k in ks ==> c.Strong(k) && k !in h.revoked && k !in h.roster
    case Activation => h.activatedAt.None?
    case Death => true
  }

  // ---------------------------------------------------------------- what is achieved

  /** The head after the body asked for: exactly that change, and one statement more. */
  ghost predicate Achieved(h: Head, next: Head, body: Body)
    requires Check(h) && Check(next)
  {
    && next.networkId == h.networkId && next.sequence == h.sequence + 1 && !next.forked
    && h.applied == next.applied[..|h.applied|]
    && Elems(next.roster) == (match body
         case Admission(ks) => Elems(h.roster) + Elems(ks)
         case Revocation(ks) => Elems(h.roster) - Elems(ks)
         case _ => Elems(h.roster))
    && Elems(next.revoked) == (if body.Revocation? then Elems(h.revoked) + Elems(body.members) else Elems(h.revoked))
    && (if body.Rotation? then Places(h.Keys(), body.entries, next.Keys()) else next.keyEpochs == h.keyEpochs)
    && next.activatedAt == (if body.Activation? then Some(next.sequence) else h.activatedAt)
    && next.deadAt == (if body.Death? then Some(next.sequence) else None)
  }

  // ---------------------------------------------------------------- members

  lemma {:induction false} NormalSize(ks: seq<Key>)
    ensures |NormalKeys(ks)| == |Elems(ks)| && AdjacentSorted(NormalKeys(ks))
    ensures forall k :: k in NormalKeys(ks) <==> k in ks
  {
    NormalKeysSorted(ks);
    SortedSize(NormalKeys(ks));
    AdjacentIsStrict(NormalKeys(ks));
    hide NormalKeys;
    forall k: Key ensures k in NormalKeys(ks) <==> k in ks {
      assert k in NormalKeys(ks) <==> k in Elems(NormalKeys(ks));
      assert k in ks <==> k in Elems(ks);
    }
  }

  lemma {:induction false} MembersAsked(c: Crypto, h: Head, body: Body)
    requires Check(h) && (body.Revocation? || body.Admission?)
    ensures Asked(c, h, body) <==> BodyValid(c, h, NormalBody(body))
  {
    var ks := body.members;
    NormalSize(ks);
    hide NormalKeys;
    hide Elems;
    hide AdjacentSorted;
    var normal := NormalKeys(ks);
    assert forall i :: 0 <= i < |normal| ==> normal[i] in normal;
  }

  // ---------------------------------------------------------------- rotation

  lemma {:induction false} SortedEntries(entries: seq<(Byte, Key)>)
    ensures var sorted := SortBy(SlotRank, entries);
      && |sorted| == |entries| && (forall e :: e in sorted <==> e in entries)
      && (Increasing(sorted) <==> SlotsApart(entries))
  {
    var sorted := SortBy(SlotRank, entries);
    SortBySorted(SlotRank, entries);
    RepeatsIff(entries);
    SameLength(sorted, entries);
    forall e: (Byte, Key) ensures e in sorted <==> e in entries {
      SameMembers(sorted, entries, e);
    }
    ApartIsDistinct(entries);
    if SlotsApart(entries) {
      DistinctPermuted(entries, sorted);
      SortedSlotsIncrease(sorted);
    }
  }

  lemma {:induction false} ApartIsDistinct(entries: seq<(Byte, Key)>)
    ensures SlotsApart(entries) <==> DistinctBy(SlotRank, entries)
  {
    forall i, j | 0 <= i < j < |entries|
      ensures SlotRank(entries[i]) == SlotRank(entries[j]) <==> entries[i].0 == entries[j].0
    {
      assert SlotRank(entries[i])[0] == entries[i].0 && SlotRank(entries[j])[0] == entries[j].0;
    }
  }

  /** Overlaying is placing. */
  lemma {:induction false} OverlayPlaces(keys: seq<Key>, entries: seq<(Byte, Key)>, sorted: seq<(Byte, Key)>)
    requires Increasing(sorted) && (forall e :: e in sorted <==> e in entries)
    requires forall j :: 0 <= j < |sorted| ==> sorted[j].0 < |keys|
    ensures Places(keys, entries, Overlay(keys, sorted))
  {
    hide Overlay;
    var after := Overlay(keys, sorted);
    forall e | e in entries ensures e.0 < |keys| && after[e.0] == e.1 {
      var i :| 0 <= i < |sorted| && sorted[i] == e;
      OverlayHit(keys, sorted, i);
    }
    forall i | 0 <= i < |keys| && (forall e :: e in entries ==> e.0 != i) ensures after[i] == keys[i] {
      assert forall j :: 0 <= j < |sorted| ==> sorted[j] in entries;
      OverlayMiss(keys, sorted, i);
    }
  }

  lemma {:induction false} PlacesOnce(keys: seq<Key>, entries: seq<(Byte, Key)>, a: seq<Key>, b: seq<Key>)
    requires Places(keys, entries, a) && Places(keys, entries, b)
    ensures a == b
  {
    forall i | 0 <= i < |keys| ensures a[i] == b[i] {
      if e :| e in entries && e.0 == i {
        assert a[e.0] == e.1 && b[e.0] == e.1;
      } else {
        assert forall e :: e in entries ==> e.0 != i;
      }
    }
  }

  lemma {:induction false} RotationSorts(c: Crypto, keys: seq<Key>, entries: seq<(Byte, Key)>)
    requires |keys| == KEY_COUNT
    ensures RotationAsked(c, keys, entries) <==> RotationValid(c, keys, SortBy(SlotRank, entries))
  {
    var sorted := SortBy(SlotRank, entries);
    SortedEntries(entries);
    hide SortBy;
    hide Overlay;
    hide Distinct;
    hide Places;
    hide SlotsApart;
    assert forall i :: 0 <= i < |sorted| ==> sorted[i] in entries;
    if RotationAsked(c, keys, entries) || RotationValid(c, keys, sorted) {
      forall j | 0 <= j < |sorted| ensures sorted[j].0 < |keys| {
        assert sorted[j] in entries;
      }
      OverlayPlaces(keys, entries, sorted);
      var after := Overlay(keys, sorted);
      if RotationAsked(c, keys, entries) {
        assert Distinct(after);
      } else {
        forall other: seq<Key> | Places(keys, entries, other) ensures Distinct(other) {
          PlacesOnce(keys, entries, other, after);
        }
        RotationListed(c, keys, entries, sorted);
      }
    }
  }

  lemma {:induction false} RotationListed(
      c: Crypto, keys: seq<Key>, entries: seq<(Byte, Key)>, sorted: seq<(Byte, Key)>)
    requires |keys| == KEY_COUNT && RotationValid(c, keys, sorted) && forall e :: e in sorted <==> e in entries
    ensures forall e :: e in entries ==> e.0 < 10 && e.0 < |keys| && c.Strong(e.1) && keys[e.0] != e.1
  {
    hide Overlay;
    forall e | e in entries ensures e.0 < 10 && e.0 < |keys| && c.Strong(e.1) && keys[e.0] != e.1 {
      var i :| 0 <= i < |sorted| && sorted[i] == e;
    }
  }

  // ---------------------------------------------------------------- the theorem

  /** The rules on a body asked for are the rules on its normal form. */
  lemma {:induction false} AskedIffValid(c: Crypto, h: Head, body: Body)
    requires Check(h)
    ensures Asked(c, h, body) <==> BodyValid(c, h, NormalBody(body))
  {
    match body
    case Rotation(entries) => RotationSorts(c, h.Keys(), entries); hide RotationAsked; hide RotationValid;
    case Revocation(_) => MembersAsked(c, h, body);
    case Admission(_) => MembersAsked(c, h, body);
    case _ =>
  }

  lemma {:induction false} ListsAchieved(c: Crypto, h: Head, body: Body, core: Core)
    requires Check(h) && BodyValid(c, h, core.body) && core.body == NormalBody(body)
    requires body.Revocation? || body.Admission?
    ensures var next := Follow(c, h, core);
      && Elems(next.roster) == (if body.Admission? then Elems(h.roster) + Elems(body.members)
                                else Elems(h.roster) - Elems(body.members))
      && Elems(next.revoked) == (if body.Revocation? then Elems(h.revoked) + Elems(body.members) else Elems(h.revoked))
  {
    var ks := body.members;
    NormalKeysSorted(ks);
    hide NormalKeys;
    AdjacentIsStrict(h.revoked);
    AdjacentIsStrict(h.roster);
    InsertAllSorted(h.revoked, NormalKeys(ks));
    InsertAllSorted(h.roster, NormalKeys(ks));
    RemoveAllSorted(h.roster, NormalKeys(ks));
    hide Elems;
    hide InsertAll;
    hide RemoveAll;
  }

  lemma {:induction false} FollowAchieves(c: Crypto, h: Head, body: Body, core: Core)
    requires Check(h) && h.deadAt.None? && !h.forked && core.sequence == h.sequence + 1
    requires core.body == NormalBody(body) && BodyValid(c, h, core.body)
    ensures Check(Follow(c, h, core)) && Achieved(h, Follow(c, h, core), body)
  {
    FollowKeepsCheck(c, h, core);
    match body
    case Rotation(entries) =>
      SortedEntries(entries);
      OverlayPlaces(h.Keys(), entries, core.body.entries);
      hide SortBy;
      hide Overlay;
      hide Places;
      hide Check;
    case Revocation(_) => ListsAchieved(c, h, body, core); hide Elems;
    case Admission(_) => ListsAchieved(c, h, body, core); hide Elems;
    case _ =>
  }

  /** A ceremony on a living replayed head: whatever the operator asks for, drafted after the last applied
      statement, signed by any 7 to 10 distinct holders and combined in any order, is applied exactly when
      the rules allow it, and then has exactly the effect asked for. */
  lemma {:induction false} CeremonyCompletes(
      c: Crypto, chain: seq<Statement>, genesis: Hash, last: Statement, body: Body, parts: seq<Part>)
    requires Replay(c, chain, genesis).Some? && Replay(c, chain, genesis).value.deadAt.None?
    requires LogOf(c, Pinned(chain, genesis)) != []
    requires last == LogOf(c, Pinned(chain, genesis))[|LogOf(c, Pinned(chain, genesis))| - 1]
    requires THRESHOLD <= |parts| <= KEY_COUNT && DistinctSlots(parts)
    requires last.core.sequence < U64_MAX
    requires forall i :: 0 <= i < |parts| ==>
      Honest(c, DraftAfter(c, last, body).core, Replay(c, chain, genesis).value.Keys(), parts[i])
    ensures var h, st := Replay(c, chain, genesis).value, Combine(c, DraftAfter(c, last, body), parts);
      && Check(h) && st.Some?
      && var r := Apply(c, Some(h), st.value, Some(genesis));
         if Asked(c, h, body)
         then r.Success? && r.value.Applied? && Check(r.value.head) && Achieved(h, r.value.head, body)
         else r == Failure(if body.Genesis? then OutOfOrder else BodyRule)
  {
    hide LogOf;
    hide Honest;
    hide Asked;
    hide Achieved;
    CeremonySigns(c, chain, genesis, last, body, parts);
    var h, draft := Replay(c, chain, genesis).value, DraftAfter(c, last, body);
    hide Replay;
    hide Combine;
    AskedIffValid(c, h, body);
    if Asked(c, h, body) {
      FollowAchieves(c, h, body, draft.core);
    }
    DraftDecided(c, h, Combine(c, draft, parts).value, Some(genesis));
    hide Apply;
    hide Check;
    hide Follow;
    hide BodyValid;
  }

  lemma {:induction false} DraftDecided(c: Crypto, h: Head, st: Statement, pinned: Option<Hash>)
    requires Check(h) && h.deadAt.None? && !h.forked && st.core.networkId == h.networkId
    requires st.core.sequence == h.sequence + 1 && st.core.previous == h.hash
    requires SignaturesValid(c, st, h.Keys(), THRESHOLD)
    ensures Apply(c, Some(h), st, pinned) ==
      if BodyValid(c, h, st.core.body) then Success(Applied(Follow(c, h, st.core)))
      else Failure(if st.core.body.Genesis? then OutOfOrder else BodyRule)
  {
  }

  // ---------------------------------------------------------------- replaying a node's own chain

  lemma {:induction false} PinnedLater(c: Crypto, h: Head, st: Statement, a: Option<Hash>, b: Option<Hash>)
    requires Check(h)
    ensures Apply(c, Some(h), st, a) == Apply(c, Some(h), st, b)
  {
  }

  lemma {:induction false} ReplayIsFold(c: Crypto, log: seq<Statement>)
    requires Good(c, log) && log != []
    ensures ReplayState(c, log, c.hash(log[0].core)) == Some(Fold(c, log))
    decreases |log|
  {
    hide Apply;
    hide Check;
    var init, st := log[..|log| - 1], log[|log| - 1];
    GoodPrefix(c, log, |log|);
    assert log[..|log|] == log;
    if |log| == 1 {
      assert init == [] && Fold(c, init) == None && ReplayState(c, init, c.hash(log[0].core)) == Some(None);
    } else {
      FoldLast(c, log);
      ReplayIsFold(c, init);
      PinnedLater(c, Fold(c, init).value, st, Some(c.hash(st.core)), Some(c.hash(log[0].core)));
    }
  }

  /** Replaying the statements a node has applied, after whatever it was offered, gives the node's own head,
      apart from the fence. */
  lemma {:induction false} ReplayReproduces(c: Crypto, inputs: seq<Input>)
    requires Run(c, inputs).Some?
    ensures var log := LogOf(c, inputs);
      log != [] && Replay(c, log, c.hash(log[0].core)) == Some(Unforked(Run(c, inputs).value))
  {
    RunIsFold(c, inputs);
    hide Run;
    hide LogOf;
    ReplayIsFold(c, LogOf(c, inputs));
    hide Fold;
    hide ReplayState;
  }
}
