/** What a policy document means: which documents are accepted, and what the policy read from one decides. */
module TargetPolicyReading {
  import opened Basics
  import opened Order
  import opened TargetPolicy
  import opened TargetPolicyTheorems
  import opened TargetPolicyEdits

  /** The targets of one peer: usable endpoints, none named twice. */
  ghost predicate ValidTargets(targets: seq<Target>) {
    && (forall t :: t in targets ==> Supported(EndpointOf(t)))
    && (forall i, j :: 0 <= i < j < |targets| ==> EndpointOf(targets[i]) != EndpointOf(targets[j]))
  }

  ghost predicate ValidMembers(members: seq<(string, seq<Target>)>) {
    && (forall m :: m in members ==> ValidFingerprint(m.0) && ValidTargets(m.1))
    && (forall i, j :: 0 <= i < j < |members| ==> members[i].0 != members[j].0)
  }

  /** The documents that mean something. */
  ghost predicate ValidDocument(doc: PolicyDocument) {
    || (doc.mode == "legacy-allow" && doc.peers.None?)
    || (doc.mode == "deny-by-default" && doc.peers.Some? && ValidMembers(doc.peers.value))
  }

  /** The document names this endpoint under this peer. */
  ghost predicate Lists(doc: PolicyDocument, peer: string, x: Endpoint) {
    doc.peers.Some? && exists m, t :: m in doc.peers.value && m.0 == peer && t in m.1 && EndpointOf(t) == x
  }

  // ---------------------------------------------------------------- one peer's targets

  ghost predicate Fresh(s: seq<Endpoint>, targets: seq<Target>) {
    ValidTargets(targets) && forall t :: t in targets ==> EndpointOf(t) !in s
  }

  lemma {:induction false} FreshSplits(s: seq<Endpoint>, targets: seq<Target>, added: seq<Endpoint>)
    requires targets != [] && forall x :: x in added <==> x in s || x == EndpointOf(targets[0])
    ensures Fresh(s, targets) <==>
      Supported(EndpointOf(targets[0])) && EndpointOf(targets[0]) !in s && Fresh(added, targets[1..])
  {
    hide EndpointOf;
    hide Supported;
    var rest := targets[1..];
    assert targets == [targets[0]] + rest;
    if Fresh(s, targets) {
      forall t | t in rest ensures EndpointOf(t) !in added {
        var j :| 0 <= j < |rest| && rest[j] == t;
        assert targets[j + 1] == t;
      }
      forall i, j | 0 <= i < j < |rest| ensures EndpointOf(rest[i]) != EndpointOf(rest[j]) {
        assert rest[i] == targets[i + 1] && rest[j] == targets[j + 1];
      }
    }
    if Supported(EndpointOf(targets[0])) && EndpointOf(targets[0]) !in s && Fresh(added, rest) {
      forall i, j | 0 <= i < j < |targets| ensures EndpointOf(targets[i]) != EndpointOf(targets[j]) {
        assert targets[j] == rest[j - 1] && targets[j] in rest;
        if i > 0 {
          assert targets[i] == rest[i - 1];
        }
      }
    }
  }

  lemma {:induction false} CollectExact(s: seq<Endpoint>, targets: seq<Target>)
    requires IsSet(s)
    ensures Collect(s, targets).Some? <==> Fresh(s, targets)
    ensures Collect(s, targets).Some? ==>
      && IsSet(Collect(s, targets).value)
      && forall x :: x in Collect(s, targets).value <==> x in s || exists t :: t in targets && EndpointOf(t) == x
    decreases |targets|
  {
    hide IsSet;
    hide EndpointOf;
    hide Supported;
    hide InsertEndpoint;
    if targets != [] {
      var e := EndpointOf(targets[0]);
      InsertEndpointAdds(s, e);
      var added := s + [e];
      FreshSplits(s, targets, added);
      if Supported(e) && e !in s {
        var next := InsertEndpoint(s, e).value;
        FreshSplits(s, targets, next);
        CollectExact(next, targets[1..]);
        assert targets == [targets[0]] + targets[1..];
      }
      hide Fresh;
    }
  }

  // ---------------------------------------------------------------- all peers

  lemma {:induction false} CollectAllExact(peers: seq<(string, seq<Target>)>)
    ensures CollectAll(peers).Some? <==> forall i :: 0 <= i < |peers| ==> Collect([], peers[i].1).Some?
    ensures CollectAll(peers).Some? ==>
      && |CollectAll(peers).value| == |peers|
      && forall i :: 0 <= i < |peers| ==>
           && CollectAll(peers).value[i].0 == peers[i].0
           && Collect([], peers[i].1) == Some(CollectAll(peers).value[i].1)
  {
    hide Collect;
    if peers != [] {
      var rest := peers[1..];
      CollectAllExact(rest);
      assert forall i :: 0 <= i < |rest| ==> rest[i] == peers[i + 1];
      assert forall i :: 0 < i < |peers| ==> peers[i] == rest[i - 1];
      if CollectAll(peers).Some? {
        var all, tail := CollectAll(peers).value, CollectAll(rest).value;
        assert forall i :: 0 < i < |peers| ==> all[i] == tail[i - 1];
      }
    }
  }

  lemma {:induction false} OrderedMembers(members: seq<(string, seq<Target>)>)
    ensures Peers(members).Some? <==>
      && (forall m :: m in members ==> ValidFingerprint(m.0))
      && (forall i, j :: 0 <= i < j < |members| ==> members[i].0 != members[j].0)
    ensures Peers(members).Some? ==> forall m :: m in Peers(members).value <==> m in members
  {
    hide ValidFingerprint;
    hide SortBy;
    var ordered := SortBy(EntryKey, members);
    forall m: (string, seq<Target>) ensures m in ordered <==> m in members {
      SameMembers(ordered, members, m);
    }
    assert forall i :: 0 <= i < |members| ==> members[i] in members;
  }

  lemma {:induction false} CollectedExactly(members: seq<(string, seq<Target>)>)
    requires Peers(members).Some?
    ensures CollectAll(Peers(members).value).Some? <==> forall m :: m in members ==> ValidTargets(m.1)
  {
    hide ValidFingerprint;
    hide Collect;
    hide ValidTargets;
    var ordered := Peers(members).value;
    OrderedMembers(members);
    hide Peers;
    CollectAllExact(ordered);
    forall i | 0 <= i < |ordered| ensures Collect([], ordered[i].1).Some? <==> ValidTargets(ordered[i].1) {
      TargetsAlone(ordered[i].1);
    }
    if forall i :: 0 <= i < |ordered| ==> Collect([], ordered[i].1).Some? {
      forall m | m in members ensures ValidTargets(m.1) {
        assert m in ordered;
        var i :| 0 <= i < |ordered| && ordered[i] == m;
      }
    }
    assert forall i :: 0 <= i < |ordered| ==> ordered[i] in members;
  }

  lemma {:induction false} TargetsAlone(targets: seq<Target>)
    ensures Collect([], targets).Some? <==> ValidTargets(targets)
    ensures Collect([], targets).Some? ==>
      forall x :: x in Collect([], targets).value <==> exists t :: t in targets && EndpointOf(t) == x
  {
    EmptyIsSet();
    CollectExact([], targets);
    hide Collect;
    hide EndpointOf;
    hide Supported;
  }

  /** Exactly the valid documents are accepted. */
  lemma {:induction false} AcceptedExactly(json: Codec<PolicyDocument>, bytes: seq<Byte>)
    ensures (ParseFile(json, bytes).Some? && !PolicyFrom(ParseFile(json, bytes).value).Invalid?)
      <==> (json.read(bytes).Some? && ValidDocument(json.read(bytes).value))
  {
    hide Peers;
    hide CollectAll;
    hide ValidTargets;
    hide ValidFingerprint;
    ModesDiffer();
    if json.read(bytes).Some? && json.read(bytes).value.peers.Some? {
      var members := json.read(bytes).value.peers.value;
      OrderedMembers(members);
      if Peers(members).Some? {
        CollectedExactly(members);
      }
    }
  }

  lemma {:induction false} ModesDiffer()
    ensures LEGACY_ALLOW != DENY_BY_DEFAULT
  {
    assert LEGACY_ALLOW[0] != DENY_BY_DEFAULT[0];
  }

  // ---------------------------------------------------------------- what the policy decides

  lemma {:induction false} NoGrant(grants: Grants, peer: string)
    requires forall i :: 0 <= i < |grants| ==> grants[i].0 != peer
    ensures Grant(grants, peer) == None
  {
    if grants != [] {
      NoGrant(grants[1..], peer);
    }
  }

  lemma {:induction false} GrantedIsListed(json: Codec<PolicyDocument>, bytes: seq<Byte>, peer: string, x: Endpoint)
    requires ParseFile(json, bytes).Some? && PolicyFrom(ParseFile(json, bytes).value).Granted?
    ensures var grant := Grant(PolicyFrom(ParseFile(json, bytes).value).grants, peer);
      grant.Some? && x in grant.value <==> Lists(json.read(bytes).value, peer, x)
  {
    var doc, p := json.read(bytes).value, PolicyFrom(ParseFile(json, bytes).value);
    ReadStorable(json, bytes);
    OrderedMembers(doc.peers.value);
    var ordered := Peers(doc.peers.value).value;
    assert p.grants == CollectAll(ordered).value;
    CollectAllExact(ordered);
    PeersValid(doc.peers.value);
    hide Peers;
    hide CollectAll;
    hide Collect;
    hide Readable;
    hide Plain;
    hide ValidFingerprint;
    hide EndpointOf;
    if i :| 0 <= i < |ordered| && ordered[i].0 == peer {
      GrantOfEntry(p.grants, i);
      TargetsAlone(ordered[i].1);
      hide WellFormed;
      if Lists(doc, peer, x) {
        var m, t :| m in doc.peers.value && m.0 == peer && t in m.1 && EndpointOf(t) == x;
        assert m in ordered;
        var k :| 0 <= k < |ordered| && ordered[k] == m;
        assert k == i;
      }
      if x in p.grants[i].1 {
        var t :| t in ordered[i].1 && EndpointOf(t) == x;
        assert ordered[i] in doc.peers.value;
      }
    } else {
      hide WellFormed;
      NoGrant(p.grants, peer);
      assert forall m :: m in ordered ==> m.0 != peer;
    }
  }

  /** A target is let through: a name without zone that resolves to supported endpoints, all of them allowed. */
  ghost predicate Passes(target: string, r: Resolver, allowed: iset<Endpoint>) {
    && '%' !in target && Resolve(r, target).Some? && Resolve(r, target).value != []
    && forall x :: x in Resolve(r, target).value ==> Supported(x) && x in allowed
  }

  /** The endpoints that a document allows a peer. */
  ghost function AllowedBy(doc: PolicyDocument, peer: string): iset<Endpoint> {
    iset x: Endpoint | doc.mode == "legacy-allow" || Lists(doc, peer, x)
  }

  /** The policy read from a valid document lets a peer through to a target exactly when the document allows
      that peer every endpoint the target stands for. */
  lemma {:induction false} ReadingDecides(
      json: Codec<PolicyDocument>, bytes: seq<Byte>, peer: string, target: string, r: Resolver)
    requires json.read(bytes).Some? && ValidDocument(json.read(bytes).value)
    ensures ParseFile(json, bytes).Some?
    ensures Authorize(PolicyFrom(ParseFile(json, bytes).value), peer, target, r).Some? <==>
      Passes(target, r, AllowedBy(json.read(bytes).value, peer))
  {
    AcceptedExactly(json, bytes);
    var p, doc := PolicyFrom(ParseFile(json, bytes).value), json.read(bytes).value;
    GrantedIsWhole(p, peer, target, r);
    ModesDiffer();
    assert p.LegacyAllow? <==> doc.mode == "legacy-allow";
    assert p.LegacyAllow? || p.Granted?;
    if p.Granted? {
      forall x: Endpoint
        ensures Grant(p.grants, peer).Some? && x in Grant(p.grants, peer).value <==> x in AllowedBy(doc, peer)
      {
        GrantedIsListed(json, bytes, peer, x);
      }
    }
    hide ParseFile;
    hide PolicyFrom;
    hide Authorize;
    hide Resolve;
    hide Grant;
    hide Supported;
    hide Lists;
    hide ValidDocument;
    if Resolve(r, target).Some? && Resolve(r, target).value != [] {
      assert Resolve(r, target).value[0] in Resolve(r, target).value;
    }
  }

  /** A literal address stands for itself and for nothing else, whatever names resolve to. */
  lemma {:induction false} LiteralsAreThemselves(p: Policy, peer: string, target: string, r: Resolver, e: Endpoint)
    requires r.literal(target) == Some(e)
    ensures Authorize(p, peer, target, r) ==
      if '%' !in target && Supported(e)
         && (p.LegacyAllow? || (p.Granted? && Grant(p.grants, peer).Some? && e in Grant(p.grants, peer).value))
      then Some([e]) else None
  {
    assert InsertEndpoint([], e) == Some([e]);
    assert [e][1..] == [] && AsSet([]) == [];
    assert AsSet([e]) == [e];
    hide Supported;
    hide Grant;
  }

  /** A name is looked up by the text before its last colon and the port after it, and only if it is plain. */
  lemma {:induction false} NamesAreLookedUp(target: string, r: Resolver, host: string, port: string)
    requires target == host + ":" + port && ':' !in port && r.literal(target) == None
    ensures Resolve(r, target) ==
      if PlainHost(r, host) && r.port(port).Some? && r.port(port).value != 0
      then r.lookup(host, r.port(port).value) else None
  {
    LastColonAt(target, |host|);
    assert target[..|host|] == host && target[|host| + 1..] == port;
  }

  lemma {:induction false} LastColonAt(s: string, i: nat)
    requires i < |s| && s[i] == ':' && ':' !in s[i + 1..]
    ensures LastColon(s) == Some(i)
  {
    var n := |s| - 1;
    if i < n {
      assert s[n] == s[i + 1..][n - i - 1];
      assert s[..n][i + 1..] <= s[i + 1..];
      LastColonAt(s[..n], i);
    }
  }
}
