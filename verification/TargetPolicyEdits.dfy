/** Reading a policy and adding or removing one exact grant. */
module TargetPolicyEdits {
  import opened Basics
  import opened Order
  import opened TargetPolicy
  import opened TargetPolicyTheorems

  function Put(grants: Grants, fp: string, endpoints: seq<Endpoint>): Grants {
    if grants == [] then [(fp, endpoints)]
    else if grants[0].0 == fp then [(fp, endpoints)] + grants[1..]
    else [grants[0]] + Put(grants[1..], fp, endpoints)
  }

  function Drop(grants: Grants, fp: string): Grants {
    if grants == [] then []
    else if grants[0].0 == fp then grants[1..]
    else [grants[0]] + Drop(grants[1..], fp)
  }

  function Without(s: seq<Endpoint>, e: Endpoint): seq<Endpoint> {
    if s == [] then [] else if s[0] == e then s[1..] else [s[0]] + Without(s[1..], e)
  }

  predicate Editable(fp: string, e: Endpoint) {
    ValidFingerprint(fp) && Supported(e)
  }

  function Allow(p: Policy, fp: string, e: Endpoint): Option<Policy> {
    if !Editable(fp, e) || p.LegacyAllow? || p.Invalid? then None
    else
      var grants := if p.Granted? then p.grants else [];
      var current := Grant(grants, fp);
      var endpoints := if current.Some? then current.value else [];
      var added := InsertEndpoint(endpoints, e);
      Some(Granted(Put(grants, fp, if added.Some? then added.value else endpoints)))
  }

  function Remove(p: Policy, fp: string, e: Endpoint): Option<Policy> {
    if !Editable(fp, e) || !p.Granted? then None
    else match Grant(p.grants, fp)
      case None => None
      case Some(endpoints) =>
        if e !in endpoints then None
        else
          var rest := Without(endpoints, e);
          Some(Granted(if rest == [] then Drop(p.grants, fp) else Put(p.grants, fp, rest)))
  }

  /** Whether the policy names this endpoint for this peer. */
  predicate Names(p: Policy, peer: string, e: Endpoint) {
    p.Granted? && Grant(p.grants, peer).Some? && e in Grant(p.grants, peer).value
  }

  // ---------------------------------------------------------------- tables

  lemma {:induction false} GrantAfterPut(grants: Grants, fp: string, endpoints: seq<Endpoint>, peer: string)
    ensures Grant(Put(grants, fp, endpoints), peer) == if peer == fp then Some(endpoints) else Grant(grants, peer)
  {
    if grants != [] && grants[0].0 != fp {
      var rest := Put(grants[1..], fp, endpoints);
      GrantAfterPut(grants[1..], fp, endpoints, peer);
      assert ([grants[0]] + rest)[1..] == rest;
    }
  }

  lemma {:induction false} PutEntries(
      grants: Grants, fp: string, endpoints: seq<Endpoint>, entry: (string, seq<Endpoint>))
    ensures entry in Put(grants, fp, endpoints) ==> entry == (fp, endpoints) || entry in grants
  {
    if grants != [] && grants[0].0 != fp {
      PutEntries(grants[1..], fp, endpoints, entry);
    }
  }

  lemma {:induction false} DropEntries(grants: Grants, fp: string, entry: (string, seq<Endpoint>))
    ensures entry in Drop(grants, fp) ==> entry in grants
  {
    if grants != [] && grants[0].0 != fp {
      DropEntries(grants[1..], fp, entry);
    }
  }

  ghost predicate NamesApart(grants: Grants) {
    forall i, j :: 0 <= i < j < |grants| ==> grants[i].0 != grants[j].0
  }

  lemma {:induction false} ConsApart(entry: (string, seq<Endpoint>), grants: Grants)
    requires NamesApart(grants)
    requires forall e :: e in grants ==> e.0 != entry.0
    ensures NamesApart([entry] + grants)
  {
    forall j | 0 <= j < |grants| ensures grants[j].0 != entry.0 {
      assert grants[j] in grants;
    }
  }

  lemma {:induction false} TailApart(grants: Grants)
    requires NamesApart(grants) && grants != []
    ensures NamesApart(grants[1..])
    ensures forall e :: e in grants[1..] ==> e.0 != grants[0].0
  {
  }

  lemma {:induction false} PutApart(grants: Grants, fp: string, endpoints: seq<Endpoint>)
    requires NamesApart(grants)
    ensures NamesApart(Put(grants, fp, endpoints))
  {
    if grants != [] {
      TailApart(grants);
      if grants[0].0 == fp {
        ConsApart((fp, endpoints), grants[1..]);
      } else {
        PutApart(grants[1..], fp, endpoints);
        forall e | e in Put(grants[1..], fp, endpoints) ensures e.0 != grants[0].0 {
          PutEntries(grants[1..], fp, endpoints, e);
        }
        ConsApart(grants[0], Put(grants[1..], fp, endpoints));
      }
    }
  }

  lemma {:induction false} DropApart(grants: Grants, fp: string)
    requires NamesApart(grants)
    ensures NamesApart(Drop(grants, fp))
  {
    if grants != [] {
      TailApart(grants);
      if grants[0].0 != fp {
        DropApart(grants[1..], fp);
        forall e | e in Drop(grants[1..], fp) ensures e.0 != grants[0].0 {
          DropEntries(grants[1..], fp, e);
        }
        ConsApart(grants[0], Drop(grants[1..], fp));
      }
    }
  }

  lemma {:induction false} GrantAfterDrop(grants: Grants, fp: string, peer: string)
    requires NamesApart(grants)
    ensures Grant(Drop(grants, fp), peer) == if peer == fp then None else Grant(grants, peer)
  {
    if grants != [] {
      TailApart(grants);
      if grants[0].0 == fp {
        if Grant(grants[1..], fp).Some? {
          GrantInTable(grants[1..], fp);
        }
      } else {
        GrantAfterDrop(grants[1..], fp, peer);
        assert ([grants[0]] + Drop(grants[1..], fp))[1..] == Drop(grants[1..], fp);
      }
    }
  }

  lemma {:induction false} WithoutMembers(s: seq<Endpoint>, e: Endpoint)
    requires IsSet(s)
    ensures IsSet(Without(s, e))
    ensures forall x :: x in Without(s, e) <==> x in s && x != e
  {
    hide Less;
    hide Key;
    if s != [] {
      TailIsSet(s);
      assert s == [s[0]] + s[1..];
      if s[0] != e {
        WithoutMembers(s[1..], e);
        var rest := Without(s[1..], e);
        forall i | 0 <= i < |rest| ensures Less(Key(s[0]), Key(rest[i])) {
          assert rest[i] in s[1..];
        }
        ConsIsSet(s[0], rest);
      }
    }
  }

  lemma {:induction false} WellFormedSplits(grants: Grants)
    ensures WellFormed(Granted(grants)) <==> NamesApart(grants) && forall e :: e in grants ==> IsSet(e.1)
  {
    hide IsSet;
    forall i | 0 <= i < |grants| ensures grants[i] in grants {
    }
  }

  /** A policy whose document reads back unchanged in meaning. */
  ghost predicate Storable(p: Policy) {
    WellFormed(p) && Readable(p) && Plain(p)
  }

  predicate StorableEntry(entry: (string, seq<Endpoint>)) {
    && ValidFingerprint(entry.0)
    && IsSet(entry.1)
    && forall x :: x in entry.1 ==> Supported(x) && x == Stripped(x)
  }

  lemma {:induction false} SetApart(s: seq<Endpoint>)
    requires IsSet(s)
    ensures forall j, k :: 0 <= j < k < |s| ==> s[j] != s[k]
  {
    hide Less;
    hide Key;
    forall j, k | 0 <= j < k < |s| ensures s[j] != s[k] {
      LessIrreflexive(Key(s[j]));
    }
  }

  lemma {:induction false} StorableSplits(grants: Grants)
    ensures Storable(Granted(grants)) <==> NamesApart(grants) && forall e :: e in grants ==> StorableEntry(e)
  {
    WellFormedSplits(grants);
    if NamesApart(grants) && forall e :: e in grants ==> StorableEntry(e) {
      forall i | 0 <= i < |grants| ensures ReadableEntry(grants[i]) {
        EntryReadable(grants[i]);
      }
      forall i, j | 0 <= i < |grants| && 0 <= j < |grants[i].1| ensures grants[i].1[j] == Stripped(grants[i].1[j]) {
        assert StorableEntry(grants[i]) && grants[i].1[j] in grants[i].1;
      }
    }
    if Storable(Granted(grants)) {
      forall e | e in grants ensures StorableEntry(e) {
        var i :| 0 <= i < |grants| && grants[i] == e;
        ReadableIsStorable(grants, i);
      }
    }
  }

  lemma {:induction false} EntryReadable(entry: (string, seq<Endpoint>))
    requires StorableEntry(entry)
    ensures ReadableEntry(entry)
  {
    hide Stripped;
    hide Supported;
    hide ValidFingerprint;
    SetApart(entry.1);
    hide IsSet;
    forall j | 0 <= j < |entry.1| ensures Stripped(entry.1[j]) == entry.1[j] && Supported(entry.1[j]) {
      assert entry.1[j] in entry.1;
    }
  }

  lemma {:induction false} ReadableIsStorable(grants: Grants, i: nat)
    requires Storable(Granted(grants)) && i < |grants|
    ensures StorableEntry(grants[i])
  {
    hide Stripped;
    hide Supported;
    hide ValidFingerprint;
    hide IsSet;
    assert ReadableEntry(grants[i]);
    forall x | x in grants[i].1 ensures Supported(x) && x == Stripped(x) {
      var j :| 0 <= j < |grants[i].1| && grants[i].1[j] == x;
      assert grants[i].1[j] == Stripped(grants[i].1[j]);
    }
  }

  // ---------------------------------------------------------------- what reading gives

  ghost predicate Usable(x: Endpoint) {
    Supported(x) && x == Stripped(x)
  }

  lemma {:induction false} CollectedUsable(s: seq<Endpoint>, targets: seq<Target>)
    requires IsSet(s) && (forall x :: x in s ==> Usable(x)) && Collect(s, targets).Some?
    ensures IsSet(Collect(s, targets).value)
    ensures forall x :: x in Collect(s, targets).value ==> Usable(x)
    decreases |targets|
  {
    hide IsSet;
    hide Supported;
    hide InsertEndpoint;
    if targets != [] {
      var e := EndpointOf(targets[0]);
      assert Usable(e);
      InsertEndpointAdds(s, e);
      hide Usable;
      CollectedUsable(InsertEndpoint(s, e).value, targets[1..]);
    }
  }

  lemma {:induction false} CollectedEntries(peers: seq<(string, seq<Target>)>)
    requires CollectAll(peers).Some?
    requires forall i :: 0 <= i < |peers| ==> ValidFingerprint(peers[i].0)
    ensures |CollectAll(peers).value| == |peers|
    ensures forall i :: 0 <= i < |peers| ==>
      CollectAll(peers).value[i].0 == peers[i].0 && StorableEntry(CollectAll(peers).value[i])
  {
    hide ValidFingerprint;
    hide Collect;
    hide IsSet;
    if peers != [] {
      EmptyIsSet();
      CollectedUsable([], peers[0].1);
      CollectedEntries(peers[1..]);
      var r := CollectAll(peers).value;
      var endpoints := Collect([], peers[0].1).value;
      assert forall x :: x in endpoints ==> Usable(x);
      assert StorableEntry((peers[0].0, endpoints));
      hide StorableEntry;
      forall i | 0 <= i < |peers| ensures r[i].0 == peers[i].0 && StorableEntry(r[i]) {
        if i > 0 {
          assert r[i] == CollectAll(peers[1..]).value[i - 1] && peers[i] == peers[1..][i - 1];
        }
      }
    }
  }

  lemma {:induction false} PeersValid(members: seq<(string, seq<Target>)>)
    requires Peers(members).Some?
    ensures var ordered := Peers(members).value;
      && (forall i :: 0 <= i < |ordered| ==> ValidFingerprint(ordered[i].0))
      && (forall i, j :: 0 <= i < j < |ordered| ==> ordered[i].0 != ordered[j].0)
  {
    hide ValidFingerprint;
    hide SortBy;
    var ordered := SortBy(EntryKey, members);
    forall i | 0 <= i < |ordered| ensures ValidFingerprint(ordered[i].0) {
      SameMembers(ordered, members, ordered[i]);
    }
    var clash := (a: (string, seq<Target>), b: (string, seq<Target>)) => a.0 == b.0;
    assert Apart(clash, members);
    ApartPermuted(clash, members, ordered);
    assert forall i, j :: 0 <= i < j < |ordered| ==> !clash(ordered[i], ordered[j]);
  }

  /** Whatever a document reads as can be stored without loss. */
  lemma {:induction false} ReadStorable(json: Codec<PolicyDocument>, bytes: seq<Byte>)
    requires ParseFile(json, bytes).Some? && !PolicyFrom(ParseFile(json, bytes).value).Invalid?
    ensures Storable(PolicyFrom(ParseFile(json, bytes).value))
  {
    hide CollectAll;
    hide Peers;
    hide ValidFingerprint;
    var p := PolicyFrom(ParseFile(json, bytes).value);
    if p.Granted? {
      var doc := json.read(bytes).value;
      assert doc.peers.Some?;
      var ordered := Peers(doc.peers.value).value;
      PeersValid(doc.peers.value);
      CollectedEntries(ordered);
      assert p.grants == CollectAll(ordered).value;
      hide StorableEntry;
      forall e | e in p.grants ensures StorableEntry(e) {
        var i :| 0 <= i < |p.grants| && p.grants[i] == e;
      }
      forall i, j | 0 <= i < j < |p.grants| ensures p.grants[i].0 != p.grants[j].0 {
        assert ordered[i].0 != ordered[j].0;
      }
      hide Storable;
      StorableSplits(p.grants);
    }
  }

  /** Whatever the exact reader returns can be stored again without loss. */
  lemma {:induction false} ParsedStorable(json: Codec<PolicyDocument>, bytes: seq<Byte>)
    requires ParseCanonical(json, bytes).Some?
    ensures Storable(ParseCanonical(json, bytes).value)
  {
    hide Canonicalize;
    hide ParseFile;
    hide PolicyFrom;
    hide Storable;
    ReadStorable(json, bytes);
  }

  // ---------------------------------------------------------------- what an edit changes

  ghost function GrantsOf(p: Policy): Grants {
    if p.Granted? then p.grants else []
  }

  lemma {:induction false} GrantIsSet(p: Policy, fp: string)
    requires WellFormed(p)
    ensures Grant(GrantsOf(p), fp).Some? ==> IsSet(Grant(GrantsOf(p), fp).value)
  {
    hide IsSet;
    if Grant(GrantsOf(p), fp).Some? {
      GrantInTable(GrantsOf(p), fp);
      WellFormedSplits(GrantsOf(p));
    }
  }

  /** Allowing adds exactly one endpoint for one peer, and fails exactly on what it cannot express. */
  lemma {:induction false} AllowAddsOne(p: Policy, fp: string, e: Endpoint, peer: string, x: Endpoint)
    requires WellFormed(p)
    ensures Allow(p, fp, e).Some? <==> ValidFingerprint(fp) && Supported(e) && (p.Deny? || p.Granted?)
    ensures Allow(p, fp, e).Some? ==>
      (Names(Allow(p, fp, e).value, peer, x) <==> Names(p, peer, x) || (peer == fp && x == e))
  {
    hide IsSet;
    hide Supported;
    hide ValidFingerprint;
    if Allow(p, fp, e).Some? {
      var current := Grant(GrantsOf(p), fp);
      var endpoints := if current.Some? then current.value else [];
      GrantIsSet(p, fp);
      EmptyIsSet();
      InsertEndpointAdds(endpoints, e);
      var added := InsertEndpoint(endpoints, e);
      GrantAfterPut(GrantsOf(p), fp, if added.Some? then added.value else endpoints, peer);
      hide Put;
      hide InsertEndpoint;
      hide Grant;
      if p.Deny? {
        EmptyTable(peer);
      }
    }
  }

  lemma {:induction false} EmptyTable(peer: string)
    ensures Grant([], peer) == None
  {
  }

  /** Removing takes away exactly that grant, and fails exactly when there is none. */
  lemma {:induction false} RemoveTakesOne(p: Policy, fp: string, e: Endpoint, peer: string, x: Endpoint)
    requires WellFormed(p)
    ensures Remove(p, fp, e).Some? <==> ValidFingerprint(fp) && Supported(e) && Names(p, fp, e)
    ensures Remove(p, fp, e).Some? ==>
      (Names(Remove(p, fp, e).value, peer, x) <==> Names(p, peer, x) && !(peer == fp && x == e))
  {
    hide IsSet;
    hide Supported;
    hide ValidFingerprint;
    if Remove(p, fp, e).Some? {
      var endpoints := Grant(p.grants, fp).value;
      GrantIsSet(p, fp);
      WithoutMembers(endpoints, e);
      var rest := Without(endpoints, e);
      WellFormedSplits(p.grants);
      GrantAfterPut(p.grants, fp, rest, peer);
      GrantAfterDrop(p.grants, fp, peer);
      hide Put;
      hide Drop;
      hide Without;
      hide Grant;
    }
  }

  /** Decisions depend on a table only through what it names. */
  lemma {:induction false} DecidedByNames(p: Policy, q: Policy, peer: string, target: string, r: Resolver)
    requires p.Granted? && q.Granted?
    requires forall x :: Names(p, peer, x) <==> Names(q, peer, x)
    ensures Authorize(p, peer, target, r) == Authorize(q, peer, target, r)
  {
    hide IsSet;
    hide Supported;
    hide Resolve;
    hide Grant;
    if Resolve(r, target).Some? {
      var endpoints := AsSet(Resolve(r, target).value);
      hide AsSet;
      if endpoints != [] {
        assert Allows(p, peer, endpoints) == Allows(q, peer, endpoints) by {
          if Allows(p, peer, endpoints) {
            assert Names(p, peer, endpoints[0]);
            forall i | 0 <= i < |endpoints| ensures Names(q, peer, endpoints[i]) {
              assert Names(p, peer, endpoints[i]);
            }
          }
          if Allows(q, peer, endpoints) {
            assert Names(q, peer, endpoints[0]);
            forall i | 0 <= i < |endpoints| ensures Names(p, peer, endpoints[i]) {
              assert Names(q, peer, endpoints[i]);
            }
          }
        }
      }
    }
  }

  /** Allowing a new grant and removing it again leaves every decision as it was. */
  lemma {:induction false} RemoveUndoesAllow(
      p: Policy, fp: string, e: Endpoint, peer: string, target: string, r: Resolver)
    requires WellFormed(p) && p.Granted? && Allow(p, fp, e).Some? && !Names(p, fp, e)
    ensures var q := Remove(Allow(p, fp, e).value, fp, e);
      q.Some? && Authorize(q.value, peer, target, r) == Authorize(p, peer, target, r)
  {
    var mid := Allow(p, fp, e).value;
    AllowAddsOne(p, fp, e, fp, e);
    EditsKeepWellFormed(p, fp, e);
    RemoveTakesOne(mid, fp, e, peer, e);
    var q := Remove(mid, fp, e).value;
    hide Allow;
    hide Remove;
    hide WellFormed;
    hide Names;
    hide Authorize;
    forall x ensures Names(p, peer, x) <==> Names(q, peer, x) {
      AllowAddsOne(p, fp, e, peer, x);
      RemoveTakesOne(mid, fp, e, peer, x);
    }
    RemoveIsTable(mid, fp, e);
    DecidedByNames(p, q, peer, target, r);
  }

  lemma {:induction false} RemoveIsTable(p: Policy, fp: string, e: Endpoint)
    requires Remove(p, fp, e).Some?
    ensures Remove(p, fp, e).value.Granted?
  {
  }

  lemma {:induction false} EditsKeepWellFormed(p: Policy, fp: string, e: Endpoint)
    requires WellFormed(p)
    ensures Allow(p, fp, e).Some? ==> WellFormed(Allow(p, fp, e).value)
    ensures Remove(p, fp, e).Some? ==> WellFormed(Remove(p, fp, e).value)
  {
    hide IsSet;
    hide Editable;
    GrantIsSet(p, fp);
    WellFormedSplits(GrantsOf(p));
    EmptyIsSet();
    if Allow(p, fp, e).Some? {
      var current := Grant(GrantsOf(p), fp);
      var endpoints := if current.Some? then current.value else [];
      InsertEndpointAdds(endpoints, e);
      var added := InsertEndpoint(endpoints, e);
      PutWellFormed(GrantsOf(p), fp, if added.Some? then added.value else endpoints);
    }
    if Remove(p, fp, e).Some? {
      var endpoints := Grant(p.grants, fp).value;
      WithoutMembers(endpoints, e);
      PutWellFormed(p.grants, fp, Without(endpoints, e));
      DropWellFormed(p.grants, fp);
    }
  }

  lemma {:induction false} PutWellFormed(grants: Grants, fp: string, endpoints: seq<Endpoint>)
    requires WellFormed(Granted(grants)) && IsSet(endpoints)
    ensures WellFormed(Granted(Put(grants, fp, endpoints)))
  {
    hide IsSet;
    hide WellFormed;
    WellFormedSplits(grants);
    PutApart(grants, fp, endpoints);
    forall e | e in Put(grants, fp, endpoints) ensures IsSet(e.1) {
      PutEntries(grants, fp, endpoints, e);
    }
    WellFormedSplits(Put(grants, fp, endpoints));
  }

  lemma {:induction false} DropWellFormed(grants: Grants, fp: string)
    requires WellFormed(Granted(grants))
    ensures WellFormed(Granted(Drop(grants, fp)))
  {
    hide IsSet;
    hide WellFormed;
    WellFormedSplits(grants);
    DropApart(grants, fp);
    forall e | e in Drop(grants, fp) ensures IsSet(e.1) {
      DropEntries(grants, fp, e);
    }
    WellFormedSplits(Drop(grants, fp));
  }

  /** Edits keep a policy storable; an endpoint with flow information is the one thing that must not be allowed in. */
  lemma {:induction false} EditsKeepStorable(p: Policy, fp: string, e: Endpoint)
    requires Storable(p)
    ensures Allow(p, fp, e).Some? ==> (Storable(Allow(p, fp, e).value) <==> e == Stripped(e))
    ensures Remove(p, fp, e).Some? ==> Storable(Remove(p, fp, e).value)
  {
    hide Stripped;
    hide Supported;
    hide ValidFingerprint;
    hide IsSet;
    hide Storable;
    TableStorable(p);
    if Allow(p, fp, e).Some? {
      AllowStorable(p, fp, e);
    }
    if Remove(p, fp, e).Some? {
      RemoveStorable(p, fp, e);
    }
  }

  lemma {:induction false} TableStorable(p: Policy)
    requires Storable(p)
    ensures Storable(Granted(GrantsOf(p)))
    ensures WellFormed(p)
  {
  }

  lemma {:induction false} EntryOf(grants: Grants, fp: string)
    requires Storable(Granted(grants))
    ensures Grant(grants, fp).Some? ==> StorableEntry((fp, Grant(grants, fp).value))
  {
    hide Storable;
    hide StorableEntry;
    StorableSplits(grants);
    if Grant(grants, fp).Some? {
      GrantInTable(grants, fp);
    }
  }

  lemma {:induction false} PutStorable(grants: Grants, fp: string, endpoints: seq<Endpoint>)
    requires Storable(Granted(grants))
    ensures Storable(Granted(Put(grants, fp, endpoints))) <==> StorableEntry((fp, endpoints))
  {
    hide Storable;
    hide StorableEntry;
    StorableSplits(grants);
    StorableSplits(Put(grants, fp, endpoints));
    PutApart(grants, fp, endpoints);
    if StorableEntry((fp, endpoints)) {
      forall e | e in Put(grants, fp, endpoints) ensures StorableEntry(e) {
        PutEntries(grants, fp, endpoints, e);
      }
    }
    GrantAfterPut(grants, fp, endpoints, fp);
    GrantInTable(Put(grants, fp, endpoints), fp);
  }

  lemma {:induction false} AllowStorable(p: Policy, fp: string, e: Endpoint)
    requires Storable(p) && Allow(p, fp, e).Some?
    ensures Storable(Allow(p, fp, e).value) <==> e == Stripped(e)
  {
    hide Stripped;
    hide Supported;
    hide ValidFingerprint;
    hide IsSet;
    hide Storable;
    TableStorable(p);
    EntryOf(GrantsOf(p), fp);
    var current := Grant(GrantsOf(p), fp);
    var endpoints := if current.Some? then current.value else [];
    EmptyIsSet();
    InsertEndpointAdds(endpoints, e);
    var added := InsertEndpoint(endpoints, e);
    var r := if added.Some? then added.value else endpoints;
    PutStorable(GrantsOf(p), fp, r);
    hide InsertEndpoint;
    hide Put;
    hide Grant;
    assert forall x :: x in r <==> x in endpoints || x == e;
  }

  lemma {:induction false} RemoveStorable(p: Policy, fp: string, e: Endpoint)
    requires Storable(p) && Remove(p, fp, e).Some?
    ensures Storable(Remove(p, fp, e).value)
  {
    hide Stripped;
    hide Supported;
    hide ValidFingerprint;
    hide IsSet;
    hide Storable;
    EntryOf(p.grants, fp);
    var endpoints := Grant(p.grants, fp).value;
    WithoutMembers(endpoints, e);
    PutStorable(p.grants, fp, Without(endpoints, e));
    StorableSplits(p.grants);
    DropApart(p.grants, fp);
    forall entry | entry in Drop(p.grants, fp) ensures StorableEntry(entry) {
      DropEntries(p.grants, fp, entry);
    }
    StorableSplits(Drop(p.grants, fp));
  }

  // ---------------------------------------------------------------- the same in steps

  lemma {:induction false} InsertEndpointAt(s: seq<Endpoint>, e: Endpoint, at: nat)
    requires at <= |s|
    requires forall i :: 0 <= i < at ==> s[i] != e && !Less(Key(e), Key(s[i]))
    requires at < |s| ==> s[at] == e || Less(Key(e), Key(s[at]))
    ensures InsertEndpoint(s, e) ==
      if at < |s| && s[at] == e then None else Some(s[..at] + [e] + s[at..])
  {
    hide Less;
    hide Key;
    if s == [] {
      assert s[..0] + [e] + s[0..] == [e];
    } else if at == 0 {
      assert s[..0] + [e] + s[0..] == [e] + s;
    } else {
      InsertEndpointAt(s[1..], e, at - 1);
      assert s[..at] + [e] + s[at..] == [s[0]] + (s[1..][..at - 1] + [e] + s[1..][at - 1..]);
    }
  }

  /** One insertion into an ordered set; `fresh` is whether the endpoint was new. */
  method InsertInto(s: seq<Endpoint>, e: Endpoint) returns (r: seq<Endpoint>, added: bool)
    ensures added == InsertEndpoint(s, e).Some?
    ensures r == if added then InsertEndpoint(s, e).value else s
  {
    hide Less;
    hide Key;
    var i := 0;
    while i < |s| && s[i] != e && !Less(Key(e), Key(s[i]))
      invariant i <= |s|
      invariant forall k :: 0 <= k < i ==> s[k] != e && !Less(Key(e), Key(s[k]))
    {
      i := i + 1;
    }
    InsertEndpointAt(s, e, i);
    if i < |s| && s[i] == e {
      return s, false;
    }
    return s[..i] + [e] + s[i..], true;
  }

  lemma {:induction false} CollectStep(s: seq<Endpoint>, targets: seq<Target>, n: nat)
    requires n < |targets|
    ensures Collect(s, targets[..n + 1]) ==
      match Collect(s, targets[..n])
      case None => None
      case Some(r) => if Supported(EndpointOf(targets[n])) then InsertEndpoint(r, EndpointOf(targets[n])) else None
    decreases n
  {
    hide EndpointOf;
    hide Supported;
    hide InsertEndpoint;
    if n == 0 {
      assert targets[..1] == [targets[0]];
      assert targets[..1][1..] == [];
    } else {
      assert targets[..n + 1][1..] == targets[1..][..n];
      assert targets[..n][1..] == targets[1..][..n - 1];
      var r := InsertEndpoint(s, EndpointOf(targets[0]));
      if r.Some? {
        CollectStep(r.value, targets[1..], n - 1);
      }
    }
  }

  lemma {:induction false} CollectPrefix(s: seq<Endpoint>, targets: seq<Target>, n: nat)
    requires n <= |targets| && Collect(s, targets[..n]).None?
    ensures Collect(s, targets).None?
    decreases |targets| - n
  {
    if n < |targets| {
      CollectStep(s, targets, n);
      CollectPrefix(s, targets, n + 1);
    } else {
      assert targets[..n] == targets;
    }
  }

  lemma {:induction false} CollectAllStep(peers: seq<(string, seq<Target>)>, n: nat)
    requires n < |peers|
    ensures CollectAll(peers[..n + 1]) ==
      match CollectAll(peers[..n])
      case None => None
      case Some(r) =>
        match Collect([], peers[n].1)
        case None => None
        case Some(endpoints) => Some(r + [(peers[n].0, endpoints)])
  {
    hide Collect;
    if n == 0 {
      assert peers[..1][0] == peers[0] && peers[..1][1..] == [];
      assert CollectAll(peers[..0]) == Some([]) && CollectAll([]) == Some([]);
      if Collect([], peers[0].1).Some? {
        var entry := (peers[0].0, Collect([], peers[0].1).value);
        assert [entry] + [] == [] + [entry];
      }
    } else {
      assert peers[..n + 1][1..] == peers[1..][..n];
      assert peers[..n][1..] == peers[1..][..n - 1];
      CollectAllStep(peers[1..], n - 1);
      var first, rest, last := Collect([], peers[0].1), CollectAll(peers[1..][..n - 1]), Collect([], peers[n].1);
      assert peers[..n + 1][0] == peers[0] && peers[..n][0] == peers[0] && peers[1..][n - 1] == peers[n];
      if first.Some? && rest.Some? && last.Some? {
        var a, b := [(peers[0].0, first.value)], [(peers[n].0, last.value)];
        assert a + (rest.value + b) == (a + rest.value) + b;
      }
    }
  }

  lemma {:induction false} CollectAllPrefix(peers: seq<(string, seq<Target>)>, n: nat)
    requires n <= |peers| && CollectAll(peers[..n]).None?
    ensures CollectAll(peers).None?
    decreases |peers| - n
  {
    if n < |peers| {
      CollectAllStep(peers, n);
      CollectAllPrefix(peers, n + 1);
    } else {
      assert peers[..n] == peers;
    }
  }

  method CollectTargets(targets: seq<Target>) returns (r: Option<seq<Endpoint>>)
    ensures r == Collect([], targets)
  {
    hide EndpointOf;
    hide Supported;
    hide InsertEndpoint;
    hide Collect;
    var endpoints: seq<Endpoint> := [];
    assert Collect([], targets[..0]) == Some([]) by { CollectNothing(targets); }
    for i := 0 to |targets|
      invariant Collect([], targets[..i]) == Some(endpoints)
    {
      CollectStep([], targets, i);
      var added := false;
      if Supported(EndpointOf(targets[i])) {
        endpoints, added := InsertInto(endpoints, EndpointOf(targets[i]));
      }
      if !added {
        CollectPrefix([], targets, i + 1);
        return None;
      }
    }
    assert targets[..|targets|] == targets;
    return Some(endpoints);
  }

  lemma {:induction false} CollectNothing(targets: seq<Target>)
    ensures Collect([], targets[..0]) == Some([])
  {
  }

  method PolicyFromFile(doc: PolicyDocument) returns (p: Policy)
    ensures p == PolicyFrom(doc)
  {
    if doc.mode == LEGACY_ALLOW && doc.peers.None? {
      return LegacyAllow;
    }
    if doc.mode != DENY_BY_DEFAULT || doc.peers.None? {
      return Invalid;
    }
    hide Collect;
    var peers := doc.peers.value;
    var grants: Grants := [];
    assert CollectAll(peers[..0]) == Some([]);
    hide CollectAll;
    for i := 0 to |peers|
      invariant CollectAll(peers[..i]) == Some(grants)
    {
      CollectAllStep(peers, i);
      var endpoints := CollectTargets(peers[i].1);
      if endpoints.None? {
        CollectAllPrefix(peers, i + 1);
        return Invalid;
      }
      grants := grants + [(peers[i].0, endpoints.value)];
    }
    assert peers[..|peers|] == peers;
    return Granted(grants);
  }

  ghost predicate FoundAt(grants: Grants, fp: string, at: nat) {
    && at <= |grants|
    && (forall i :: 0 <= i < at ==> grants[i].0 != fp)
    && (at < |grants| ==> grants[at].0 == fp)
  }

  function After(grants: Grants, at: nat): Grants {
    if at < |grants| then grants[at + 1..] else []
  }

  lemma {:induction false} TailFoundAt(grants: Grants, fp: string, at: nat)
    requires FoundAt(grants, fp, at) && at > 0
    ensures FoundAt(grants[1..], fp, at - 1)
    ensures After(grants[1..], at - 1) == After(grants, at)
    ensures grants[..at] == [grants[0]] + grants[1..][..at - 1]
    ensures grants != [] && grants[0].0 != fp
  {
  }

  lemma {:induction false} GrantAt(grants: Grants, fp: string, at: nat)
    requires FoundAt(grants, fp, at)
    ensures Grant(grants, fp) == if at < |grants| then Some(grants[at].1) else None
  {
    if at > 0 {
      TailFoundAt(grants, fp, at);
      GrantAt(grants[1..], fp, at - 1);
    }
  }

  lemma {:induction false} PutAt(grants: Grants, fp: string, at: nat, endpoints: seq<Endpoint>)
    requires FoundAt(grants, fp, at)
    ensures Put(grants, fp, endpoints) == grants[..at] + [(fp, endpoints)] + After(grants, at)
  {
    if at == 0 {
      assert grants[..0] + [(fp, endpoints)] + After(grants, 0) == [(fp, endpoints)] + After(grants, 0);
    } else {
      TailFoundAt(grants, fp, at);
      PutAt(grants[1..], fp, at - 1, endpoints);
      hide After;
      hide FoundAt;
      var x, y := grants[1..][..at - 1], After(grants, at);
      assert [grants[0]] + (x + [(fp, endpoints)] + y) == ([grants[0]] + x) + [(fp, endpoints)] + y;
    }
  }

  lemma {:induction false} DropAt(grants: Grants, fp: string, at: nat)
    requires FoundAt(grants, fp, at)
    ensures Drop(grants, fp) == grants[..at] + After(grants, at)
  {
    if at == 0 {
      assert grants[..0] + After(grants, 0) == After(grants, 0);
    } else {
      TailFoundAt(grants, fp, at);
      assert grants[0].0 != fp;
      hide FoundAt;
      DropAt(grants[1..], fp, at - 1);
      DropTail(grants, at);
    }
  }

  lemma {:induction false} DropTail(grants: Grants, at: nat)
    requires 0 < at <= |grants|
    ensures [grants[0]] + (grants[1..][..at - 1] + After(grants[1..], at - 1)) == grants[..at] + After(grants, at)
  {
  }

  method FindPeer(grants: Grants, fp: string) returns (at: nat)
    ensures FoundAt(grants, fp, at)
  {
    at := 0;
    while at < |grants| && grants[at].0 != fp
      invariant at <= |grants|
      invariant forall i :: 0 <= i < at ==> grants[i].0 != fp
    {
      at := at + 1;
    }
  }

  method AllowExact(p: Policy, fp: string, e: Endpoint) returns (r: Option<Policy>)
    ensures r == Allow(p, fp, e)
  {
    hide Put;
    hide InsertEndpoint;
    hide Grant;
    if !Editable(fp, e) || p.LegacyAllow? || p.Invalid? {
      return None;
    }
    var grants := if p.Granted? then p.grants else [];
    var at := FindPeer(grants, fp);
    var endpoints := if at < |grants| then grants[at].1 else [];
    var added;
    endpoints, added := InsertInto(endpoints, e);
    GrantAt(grants, fp, at);
    PutAt(grants, fp, at, endpoints);
    return Some(Granted(grants[..at] + [(fp, endpoints)] + After(grants, at)));
  }

  lemma {:induction false} WithoutAt(s: seq<Endpoint>, e: Endpoint, at: nat)
    requires at <= |s|
    requires forall i :: 0 <= i < at ==> s[i] != e
    requires at < |s| ==> s[at] == e
    ensures e in s <==> at < |s|
    ensures Without(s, e) == if at < |s| then s[..at] + s[at + 1..] else s
  {
    if at > 0 {
      WithoutAt(s[1..], e, at - 1);
      if at < |s| {
        assert s[..at] + s[at + 1..] == [s[0]] + (s[1..][..at - 1] + s[1..][at..]);
      }
    }
  }

  method RemoveExact(p: Policy, fp: string, e: Endpoint) returns (r: Option<Policy>)
    ensures r == Remove(p, fp, e)
  {
    hide Put;
    hide Drop;
    hide Grant;
    hide Without;
    if !Editable(fp, e) || !p.Granted? {
      return None;
    }
    var at := FindPeer(p.grants, fp);
    GrantAt(p.grants, fp, at);
    if at == |p.grants| {
      return None;
    }
    var endpoints := p.grants[at].1;
    var i := 0;
    while i < |endpoints| && endpoints[i] != e
      invariant i <= |endpoints|
      invariant forall k :: 0 <= k < i ==> endpoints[k] != e
    {
      i := i + 1;
    }
    WithoutAt(endpoints, e, i);
    if i == |endpoints| {
      return None;
    }
    var rest := endpoints[..i] + endpoints[i + 1..];
    PutAt(p.grants, fp, at, rest);
    DropAt(p.grants, fp, at);
    if rest == [] {
      return Some(Granted(p.grants[..at] + p.grants[at + 1..]));
    }
    return Some(Granted(p.grants[..at] + [(fp, rest)] + p.grants[at + 1..]));
  }
}
