/** Storing a Target Policy keeps its meaning, and a grant is all or nothing. */
module TargetPolicyTheorems {
  import opened Basics
  import opened Order
  import opened TargetPolicy

  // ---------------------------------------------------------------- ordered sets of endpoints

  lemma {:induction false} TailIsSet(s: seq<Endpoint>)
    requires IsSet(s) && s != []
    ensures IsSet(s[1..])
    ensures forall i :: 0 <= i < |s[1..]| ==> Less(Key(s[0]), Key(s[1..][i]))
    ensures s[0] !in s[1..]
  {
    hide Less;
    hide Key;
    LessIrreflexive(Key(s[0]));
  }

  lemma {:induction false} ConsIsSet(e: Endpoint, s: seq<Endpoint>)
    requires IsSet(s)
    requires forall i :: 0 <= i < |s| ==> Less(Key(e), Key(s[i]))
    ensures IsSet([e] + s)
  {
    hide Less;
    hide Key;
  }

  /** Insertion fails exactly on a member, and otherwise adds that one endpoint in its place. */
  lemma {:induction false} InsertEndpointAdds(s: seq<Endpoint>, e: Endpoint)
    requires IsSet(s)
    ensures InsertEndpoint(s, e).None? <==> e in s
    ensures InsertEndpoint(s, e).Some? ==>
      && IsSet(InsertEndpoint(s, e).value)
      && forall x :: x in InsertEndpoint(s, e).value <==> x in s || x == e
  {
    hide Less;
    hide Key;
    if s == [] {
    } else if s[0] == e {
    } else if Less(Key(e), Key(s[0])) {
      forall i | 0 <= i < |s| ensures Less(Key(e), Key(s[i])) {
        if i > 0 {
          LessTransitive(Key(e), Key(s[0]), Key(s[i]));
        }
      }
      ConsIsSet(e, s);
      if e in s {
        LessIrreflexive(Key(e));
      }
    } else {
      TailIsSet(s);
      InsertEndpointAdds(s[1..], e);
      if InsertEndpoint(s[1..], e).Some? {
        var r := InsertEndpoint(s[1..], e).value;
        forall i | 0 <= i < |r| ensures Less(Key(s[0]), Key(r[i])) {
          if r[i] == e {
            AboveFirst(s[0], e);
          } else {
            assert r[i] in s[1..];
          }
        }
        ConsIsSet(s[0], r);
      }
    }
  }

  lemma {:induction false} AboveFirst(a: Endpoint, e: Endpoint)
    requires a != e && !Less(Key(e), Key(a))
    ensures Less(Key(a), Key(e))
  {
    hide Less;
    hide Key;
    LessTotal(Key(a), Key(e));
    if Key(a) == Key(e) {
      KeyInjective(a, e);
    }
  }

  lemma {:induction false} AsSetMembers(s: seq<Endpoint>)
    ensures IsSet(AsSet(s))
    ensures forall x :: x in AsSet(s) <==> x in s
  {
    hide Less;
    hide Key;
    if s != [] {
      AsSetMembers(s[1..]);
      InsertEndpointAdds(AsSet(s[1..]), s[0]);
      assert s == [s[0]] + s[1..];
    }
  }

  // ---------------------------------------------------------------- stripping flow and scope

  lemma {:induction false} StrippedFixed(e: Endpoint)
    ensures TargetOf(Stripped(e)) == TargetOf(e)
    ensures Stripped(Stripped(e)) == Stripped(e)
  {
  }

  /** Lists of one length compare by their first difference, whatever follows them. */
  lemma {:induction false} LessByPrefix(x: seq<int>, y: seq<int>, t: seq<int>, u: seq<int>)
    requires |x| == |y| && x != y
    ensures Less(x + t, y + u) <==> Less(x, y)
  {
    assert (x + t)[0] == x[0] && (y + u)[0] == y[0];
    if x[0] == y[0] {
      assert x == [x[0]] + x[1..] && y == [y[0]] + y[1..];
      assert (x + t)[1..] == x[1..] + t && (y + u)[1..] == y[1..] + u;
      LessByPrefix(x[1..], y[1..], t, u);
    }
  }

  function Head(e: Endpoint): seq<int>
    requires e.V6?
  {
    [1] + e.ip6 + [e.port]
  }

  lemma {:induction false} HeadsApart(a: Endpoint, b: Endpoint)
    requires a.V6? && b.V6?
    ensures Head(a) == Head(b) ==> Stripped(a) == Stripped(b)
  {
    if Head(a) == Head(b) {
      assert Head(a)[1..17] == a.ip6 && Head(b)[1..17] == b.ip6;
      assert Head(a)[17] == Head(b)[17];
    }
  }

  lemma {:induction false} StrippingKeepsOrder(a: Endpoint, b: Endpoint)
    requires Less(Key(a), Key(b)) && Stripped(a) != Stripped(b)
    ensures Less(Key(Stripped(a)), Key(Stripped(b)))
  {
    if a.V6? && b.V6? {
      hide Less;
      HeadsApart(a, b);
      var x, y := Head(a), Head(b);
      assert Key(a) == x + [a.flow, a.scope] && Key(b) == y + [b.flow, b.scope];
      assert Key(Stripped(a)) == x + [0, 0] && Key(Stripped(b)) == y + [0, 0];
      LessByPrefix(x, y, [a.flow, a.scope], [b.flow, b.scope]);
      LessByPrefix(x, y, [0, 0], [0, 0]);
    }
  }

  lemma {:induction false} StrippedIsSet(s: seq<Endpoint>)
    requires IsSet(s)
    requires forall j, k :: 0 <= j < k < |s| ==> Stripped(s[j]) != Stripped(s[k])
    ensures IsSet(StrippedAll(s))
  {
    hide Less;
    hide Key;
    hide Stripped;
    forall j, k | 0 <= j < k < |s| ensures Less(Key(StrippedAll(s)[j]), Key(StrippedAll(s)[k])) {
      StrippingKeepsOrder(s[j], s[k]);
    }
  }

  // ---------------------------------------------------------------- collecting targets

  function Endpoints(targets: seq<Target>): (r: seq<Endpoint>)
    ensures |r| == |targets|
    ensures forall i :: 0 <= i < |r| ==> r[i] == EndpointOf(targets[i])
  {
    if targets == [] then [] else [EndpointOf(targets[0])] + Endpoints(targets[1..])
  }

  lemma {:induction false} EndpointsOfTargets(endpoints: seq<Endpoint>)
    ensures Endpoints(TargetsOf(endpoints)) == StrippedAll(endpoints)
    ensures forall j :: 0 <= j < |endpoints| ==> EndpointOf(TargetsOf(endpoints)[j]) == Stripped(endpoints[j])
  {
  }

  lemma {:induction false} InsertLast(s: seq<Endpoint>, e: Endpoint)
    requires IsSet(s + [e])
    ensures InsertEndpoint(s, e) == Some(s + [e])
  {
    hide Less;
    hide Key;
    if s == [] {
      assert s + [e] == [e];
    } else {
      assert (s + [e])[1..] == s[1..] + [e];
      TailIsSet(s + [e]);
      assert Less(Key(s[0]), Key(e)) by {
        assert (s + [e])[0] == s[0] && (s + [e])[|s|] == e;
      }
      LessAsymmetric(Key(s[0]), Key(e));
      LessIrreflexive(Key(e));
      InsertLast(s[1..], e);
      assert s + [e] == [s[0]] + (s[1..] + [e]);
    }
  }

  lemma {:induction false} PrefixIsSet(s: seq<Endpoint>, n: nat)
    requires IsSet(s) && n <= |s|
    ensures IsSet(s[..n])
  {
    hide Less;
    hide Key;
  }

  lemma {:induction false} OneMore(s: seq<Endpoint>, targets: seq<Target>)
    requires targets != []
    ensures (s + Endpoints(targets))[..|s| + 1] == s + [EndpointOf(targets[0])]
    ensures s + Endpoints(targets) == (s + [EndpointOf(targets[0])]) + Endpoints(targets[1..])
  {
    hide EndpointOf;
  }

  /** Targets that already form an ordered set are collected as they are. */
  lemma {:induction false} CollectOrdered(s: seq<Endpoint>, targets: seq<Target>)
    requires IsSet(s + Endpoints(targets))
    requires forall i :: 0 <= i < |targets| ==> Supported(EndpointOf(targets[i]))
    ensures Collect(s, targets) == Some(s + Endpoints(targets))
    decreases |targets|
  {
    hide IsSet;
    hide EndpointOf;
    hide Supported;
    hide InsertEndpoint;
    if targets == [] {
      assert s + Endpoints(targets) == s;
    } else {
      var e := EndpointOf(targets[0]);
      OneMore(s, targets);
      PrefixIsSet(s + Endpoints(targets), |s| + 1);
      InsertLast(s, e);
      hide Endpoints;
      CollectOrdered(s + [e], targets[1..]);
    }
  }

  /** Anything collected was supported and named once. */
  lemma {:induction false} CollectDemands(s: seq<Endpoint>, targets: seq<Target>)
    requires IsSet(s) && Collect(s, targets).Some?
    ensures forall i :: 0 <= i < |targets| ==> Supported(EndpointOf(targets[i])) && EndpointOf(targets[i]) !in s
    ensures forall i, j :: 0 <= i < j < |targets| ==> EndpointOf(targets[i]) != EndpointOf(targets[j])
    decreases |targets|
  {
    hide Less;
    hide Key;
    hide EndpointOf;
    hide Supported;
    hide InsertEndpoint;
    if targets != [] {
      var e := EndpointOf(targets[0]);
      InsertEndpointAdds(s, e);
      var r := InsertEndpoint(s, e).value;
      CollectDemands(r, targets[1..]);
      forall i | 0 <= i < |targets| ensures Supported(EndpointOf(targets[i])) && EndpointOf(targets[i]) !in s {
        if i > 0 {
          assert targets[i] == targets[1..][i - 1];
        }
      }
      forall i, j | 0 <= i < j < |targets| ensures EndpointOf(targets[i]) != EndpointOf(targets[j]) {
        assert targets[j] == targets[1..][j - 1];
        if i > 0 {
          assert targets[i] == targets[1..][i - 1];
        }
      }
    }
  }

  lemma {:induction false} EmptyIsSet()
    ensures IsSet([])
  {
  }

  lemma {:induction false} CollectedReadable(fp: string, endpoints: seq<Endpoint>)
    requires ValidFingerprint(fp) && Collect([], TargetsOf(endpoints)).Some?
    ensures ReadableEntry((fp, endpoints))
  {
    hide IsSet;
    hide EndpointOf;
    hide Stripped;
    hide Supported;
    hide ValidFingerprint;
    hide Collect;
    EmptyIsSet();
    var targets := TargetsOf(endpoints);
    CollectDemands([], targets);
    EndpointsOfTargets(endpoints);
    forall j, k | 0 <= j < k < |endpoints| ensures Stripped(endpoints[j]) != Stripped(endpoints[k]) {
      assert EndpointOf(targets[j]) != EndpointOf(targets[k]);
    }
    forall j | 0 <= j < |endpoints| ensures Supported(Stripped(endpoints[j])) {
      assert Supported(EndpointOf(targets[j]));
    }
  }

  /** One entry is collected exactly when it is readable, and comes back stripped. */
  lemma {:induction false} CollectEntry(fp: string, endpoints: seq<Endpoint>)
    requires IsSet(endpoints) && ValidFingerprint(fp)
    ensures Collect([], TargetsOf(endpoints)) ==
      if ReadableEntry((fp, endpoints)) then Some(StrippedAll(endpoints)) else None
  {
    hide IsSet;
    hide EndpointOf;
    hide Stripped;
    hide Supported;
    hide ValidFingerprint;
    hide Collect;
    hide Endpoints;
    hide TargetsOf;
    hide StrippedAll;
    if Collect([], TargetsOf(endpoints)).Some? {
      CollectedReadable(fp, endpoints);
    }
    if ReadableEntry((fp, endpoints)) {
      EndpointsOfTargets(endpoints);
      assert [] + Endpoints(TargetsOf(endpoints)) == Endpoints(TargetsOf(endpoints));
      StrippedIsSet(endpoints);
      CollectOrdered([], TargetsOf(endpoints));
    }
  }

  lemma {:induction false} CollectEntries(grants: Grants)
    requires forall i :: 0 <= i < |grants| ==> IsSet(grants[i].1) && ValidFingerprint(grants[i].0)
    ensures CollectAll(Members(grants)) ==
      if forall i :: 0 <= i < |grants| ==> ReadableEntry(grants[i])
      then Some(StrippedEntries(grants))
      else None
  {
    hide IsSet;
    hide ValidFingerprint;
    hide ReadableEntry;
    hide Collect;
    if grants != [] {
      CollectEntry(grants[0].0, grants[0].1);
      CollectEntries(grants[1..]);
      assert Members(grants)[1..] == Members(grants[1..]);
      if forall i :: 0 <= i < |grants| ==> ReadableEntry(grants[i]) {
        assert forall i :: 0 <= i < |grants[1..]| ==> ReadableEntry(grants[1..][i]);
        assert ReadableEntry(grants[0]);
      } else {
        if ReadableEntry(grants[0]) {
          assert forall i :: 0 <= i < |grants| ==> grants[i] == grants[0] || grants[i] in grants[1..];
        }
      }
    }
  }

  // ---------------------------------------------------------------- storing and reading back

  /** The grants in name order: same entries, names still apart. */
  lemma {:induction false} OrderedGrants(grants: Grants)
    requires WellFormed(Granted(grants))
    ensures var g := SortBy(EntryKey, grants);
      && SortedBy(EntryKey, g)
      && WellFormed(Granted(g))
      && (forall e :: e in g <==> e in grants)
  {
    hide IsSet;
    hide SortBy;
    hide SortedBy;
    var g := SortBy(EntryKey, grants);
    SortBySorted(EntryKey, grants);
    forall e ensures e in g <==> e in grants {
      SameMembers(g, grants, e);
    }
    var clash := (a: (string, seq<Endpoint>), b: (string, seq<Endpoint>)) => a.0 == b.0;
    assert Apart(clash, grants);
    ApartPermuted(clash, grants, g);
    assert forall i, j :: 0 <= i < j < |g| ==> !clash(g[i], g[j]);
    forall i | 0 <= i < |g| ensures IsSet(g[i].1) {
      assert g[i] in grants;
    }
  }

  lemma {:induction false} ReadableOrdered(grants: Grants, g: Grants)
    requires forall e :: e in g <==> e in grants
    ensures Readable(Granted(g)) <==> Readable(Granted(grants))
  {
    hide ReadableEntry;
    forall i | 0 <= i < |g| ensures g[i] in grants {
      assert g[i] in g;
    }
    forall i | 0 <= i < |grants| ensures grants[i] in g {
      assert grants[i] in grants;
    }
  }

  lemma {:induction false} SameNames<S, T>(s: seq<(string, S)>, t: seq<(string, T)>)
    requires |s| == |t| && SortedBy(EntryKey, s)
    requires forall i :: 0 <= i < |s| ==> s[i].0 == t[i].0
    ensures SortedBy(EntryKey, t)
  {
    hide Less;
    forall i, j | 0 <= i < j < |t| ensures !Less(EntryKey(t[j]), EntryKey(t[i])) {
      assert EntryKey(s[i]) == EntryKey(t[i]) && EntryKey(s[j]) == EntryKey(t[j]);
    }
  }

  /** Members of an ordered table read back in order, and only under fingerprints. */
  lemma {:induction false} PeersOfOrdered(g: Grants)
    requires WellFormed(Granted(g)) && SortedBy(EntryKey, g)
    ensures Peers(Members(g)) ==
      if forall i :: 0 <= i < |g| ==> ValidFingerprint(g[i].0) then Some(Members(g)) else None
  {
    hide IsSet;
    hide ValidFingerprint;
    hide SortedBy;
    hide SortBy;
    SameNames(g, Members(g));
    SortByFixed(EntryKey, Members(g));
    if forall i :: 0 <= i < |g| ==> ValidFingerprint(g[i].0) {
    } else {
      var i :| 0 <= i < |g| && !ValidFingerprint(g[i].0);
      assert !ValidFingerprint(Members(g)[i].0);
    }
  }

  lemma {:induction false} MembersOfStripped(g: Grants)
    ensures Members(StrippedEntries(g)) == Members(g)
  {
    forall i | 0 <= i < |g| ensures Members(StrippedEntries(g))[i] == Members(g)[i] {
      var s := g[i].1;
      assert TargetsOf(StrippedAll(s)) == TargetsOf(s) by {
        forall j | 0 <= j < |s| ensures TargetsOf(StrippedAll(s))[j] == TargetsOf(s)[j] {
          StrippedFixed(s[j]);
        }
      }
    }
  }

  function FileOf(g: Grants): PolicyDocument {
    PolicyDocument(DENY_BY_DEFAULT, Some(Members(g)))
  }

  /** An ordered table's document parses to its normal form exactly when it is readable. */
  lemma {:induction false} TableParses(json: Codec<PolicyDocument>, g: Grants)
    requires json.Faithful() && WellFormed(Granted(g)) && SortedBy(EntryKey, g)
    ensures var read := ParseFile(json, json.write(FileOf(g)));
      if Readable(Granted(g)) then read.Some? && PolicyFrom(read.value) == Granted(StrippedEntries(g))
      else read.None? || PolicyFrom(read.value) == Invalid
  {
    hide IsSet;
    hide Peers;
    hide CollectAll;
    hide Collect;
    hide SortedBy;
    hide Members;
    hide StrippedEntries;
    hide ValidFingerprint;
    PeersOfOrdered(g);
    assert json.read(json.write(FileOf(g))) == Some(FileOf(g));
    if forall i :: 0 <= i < |g| ==> ValidFingerprint(g[i].0) {
      CollectEntries(g);
      assert ParseFile(json, json.write(FileOf(g))) == Some(FileOf(g));
    } else {
      assert ParseFile(json, json.write(FileOf(g))) == None;
    }
  }

  lemma {:induction false} TableOfStripped(g: Grants)
    requires SortedBy(EntryKey, g)
    ensures DocumentOf(Granted(StrippedEntries(g))) == Some(FileOf(g))
  {
    hide SortedBy;
    hide SortBy;
    SameNames(g, StrippedEntries(g));
    SortByFixed(EntryKey, StrippedEntries(g));
    MembersOfStripped(g);
  }

  /** It is then its own canonical form, so the exact reader accepts it too. */
  lemma {:induction false} OrderedReadsBack(json: Codec<PolicyDocument>, g: Grants)
    requires json.Faithful() && WellFormed(Granted(g)) && SortedBy(EntryKey, g)
    ensures ParseCanonical(json, json.write(FileOf(g))) ==
      if Readable(Granted(g)) then Some(Granted(StrippedEntries(g))) else None
  {
    hide WellFormed;
    hide Readable;
    hide ParseFile;
    hide PolicyFrom;
    hide SortedBy;
    hide StrippedEntries;
    TableParses(json, g);
    TableOfStripped(g);
    hide FileOf;
  }

  /** Storing a policy and reading it back gives its normal form, exactly for the readable ones. */
  lemma {:induction false} PolicyReadsBack(json: Codec<PolicyDocument>, p: Policy)
    requires json.Faithful() && WellFormed(p) && !p.Invalid?
    ensures Canonical(json, p).Some?
    ensures ParseCanonical(json, Canonical(json, p).value) == if Readable(p) then Some(Normal(p)) else None
  {
    hide IsSet;
    hide ReadableEntry;
    hide SortBy;
    hide SortedBy;
    match p
    case Deny =>
      EmptyOrdered();
      OrderedReadsBack(json, []);
    case LegacyAllow =>
    case Granted(grants) =>
      hide ParseCanonical;
      OrderedGrants(grants);
      var g := SortBy(EntryKey, grants);
      ReadableOrdered(grants, g);
      OrderedReadsBack(json, g);
  }

  lemma {:induction false} EmptyOrdered()
    ensures SortedBy<(string, seq<Endpoint>)>(EntryKey, [])
  {
  }

  // ---------------------------------------------------------------- the decision

  /** A target is let through exactly when it resolves to supported endpoints that are all granted,
      and then with the whole resolved set. */
  lemma {:induction false} GrantedIsWhole(p: Policy, peer: string, target: string, r: Resolver)
    ensures Authorize(p, peer, target, r).Some? <==>
      && '%' !in target
      && Resolve(r, target).Some?
      && Resolve(r, target).value != []
      && (forall x :: x in Resolve(r, target).value ==> Supported(x))
      && (p.LegacyAllow? ||
          (p.Granted? && Grant(p.grants, peer).Some? &&
           forall x :: x in Resolve(r, target).value ==> x in Grant(p.grants, peer).value))
    ensures Authorize(p, peer, target, r).Some? ==>
      var granted := Authorize(p, peer, target, r).value;
      IsSet(granted) && forall x :: x in granted <==> x in Resolve(r, target).value
  {
    hide IsSet;
    hide Supported;
    hide Resolve;
    hide Grant;
    if Resolve(r, target).Some? {
      var found := Resolve(r, target).value;
      AsSetMembers(found);
      SetsMatch(AsSet(found), found);
      hide AsSet;
      assert forall x :: x in AsSet(found) <==> x in found;
    }
  }

  lemma {:induction false} SetsMatch(s: seq<Endpoint>, t: seq<Endpoint>)
    requires forall x :: x in s <==> x in t
    ensures s == [] <==> t == []
  {
    assert s != [] ==> s[0] in s;
    assert t != [] ==> t[0] in t;
  }

  lemma {:induction false} GrantOfEntry(grants: Grants, i: nat)
    requires WellFormed(Granted(grants)) && i < |grants|
    ensures Grant(grants, grants[i].0) == Some(grants[i].1)
  {
    hide IsSet;
    if i > 0 {
      assert grants[i] == grants[1..][i - 1];
      GrantOfEntry(grants[1..], i - 1);
    }
  }

  lemma {:induction false} GrantInTable(grants: Grants, peer: string)
    requires Grant(grants, peer).Some?
    ensures (peer, Grant(grants, peer).value) in grants
  {
    if grants[0].0 != peer {
      GrantInTable(grants[1..], peer);
    }
  }

  /** Every granted endpoint is one a document can express. */
  predicate Plain(p: Policy) {
    p.Granted? ==> forall i, j :: 0 <= i < |p.grants| && 0 <= j < |p.grants[i].1| ==>
      p.grants[i].1[j] == Stripped(p.grants[i].1[j])
  }

  lemma {:induction false} PlainEntry(grants: Grants, entry: (string, seq<Endpoint>))
    requires Plain(Granted(grants)) && entry in grants
    ensures StrippedAll(entry.1) == entry.1
  {
    hide Stripped;
    var i :| 0 <= i < |grants| && grants[i] == entry;
    forall j | 0 <= j < |entry.1| ensures StrippedAll(entry.1)[j] == entry.1[j] {
      assert grants[i].1[j] == entry.1[j];
    }
  }

  /** The stored table grants what the original did. */
  lemma {:induction false} StoredGrants(grants: Grants, peer: string)
    requires WellFormed(Granted(grants)) && Plain(Granted(grants))
    ensures Grant(Stored(grants), peer) == Grant(grants, peer)
  {
    hide IsSet;
    hide SortBy;
    hide Stripped;
    hide Plain;
    var g := SortBy(EntryKey, grants);
    OrderedGrants(grants);
    forall i | 0 <= i < |g| ensures Stored(grants)[i] == g[i] {
      PlainEntry(grants, g[i]);
    }
    assert Stored(grants) == g;
    hide Stored;
    SameGrant(g, grants, peer);
  }

  lemma {:induction false} SameGrant(g: Grants, grants: Grants, peer: string)
    requires WellFormed(Granted(grants)) && WellFormed(Granted(g))
    requires forall e :: e in g <==> e in grants
    ensures Grant(g, peer) == Grant(grants, peer)
  {
    hide IsSet;
    if Grant(g, peer).Some? {
      GrantInTable(g, peer);
      var i :| 0 <= i < |grants| && grants[i] == (peer, Grant(g, peer).value);
      GrantOfEntry(grants, i);
    } else if Grant(grants, peer).Some? {
      GrantInTable(grants, peer);
      var i :| 0 <= i < |g| && g[i] == (peer, Grant(grants, peer).value);
      GrantOfEntry(g, i);
    }
  }

  /** Storing a policy of plain endpoints changes no decision. */
  lemma {:induction false} StoringKeepsDecisions(p: Policy, peer: string, target: string, r: Resolver)
    requires WellFormed(p) && Plain(p)
    ensures Authorize(Normal(p), peer, target, r) == Authorize(p, peer, target, r)
  {
    hide IsSet;
    hide Plain;
    hide Stored;
    hide AsSet;
    hide Resolve;
    hide Supported;
    if p.Granted? {
      StoredGrants(p.grants, peer);
      hide Grant;
    }
  }

  lemma {:induction false} GrantOfStored(grants: Grants, i: nat)
    requires WellFormed(Granted(grants)) && Readable(Granted(grants)) && i < |grants|
    ensures Grant(Stored(grants), grants[i].0) == Some(StrippedAll(grants[i].1))
  {
    hide IsSet;
    hide SortBy;
    hide ReadableEntry;
    hide StrippedAll;
    OrderedGrants(grants);
    var g := SortBy(EntryKey, grants);
    assert grants[i] in g;
    var k :| 0 <= k < |g| && g[k] == grants[i];
    StrippedWellFormed(grants);
    GrantOfEntry(Stored(grants), k);
  }

  lemma {:induction false} StrippedWellFormed(grants: Grants)
    requires WellFormed(Granted(grants)) && Readable(Granted(grants))
    ensures WellFormed(Granted(Stored(grants)))
  {
    hide IsSet;
    hide SortBy;
    hide Stripped;
    hide Supported;
    hide ValidFingerprint;
    OrderedGrants(grants);
    var g := SortBy(EntryKey, grants);
    forall k | 0 <= k < |g| ensures IsSet(Stored(grants)[k].1) {
      assert g[k] in grants;
      var i :| 0 <= i < |grants| && grants[i] == g[k];
      assert ReadableEntry(grants[i]);
      StrippedIsSet(g[k].1);
    }
  }

  /** A resolver whose every host name stands for one endpoint. */
  ghost function Naming(x: Endpoint): Resolver {
    Resolver(t => None, t => Some(1), ch => false, (host, port) => Some([x]))
  }

  lemma {:induction false} ResolvesByName(x: Endpoint)
    ensures Resolve(Naming(x), "a:1") == Some([x])
  {
    var target := "a:1";
    assert target[..|target| - 1] == "a:";
    assert LastColon("a:") == Some(1);
    assert LastColon(target) == Some(1);
    assert target[..1] == "a";
  }

  /** A peer may dial that name exactly when the endpoint is granted. */
  lemma {:induction false} DecidesByName(grants: Grants, peer: string, x: Endpoint)
    requires Supported(x) && Grant(grants, peer).Some?
    ensures Authorize(Granted(grants), peer, "a:1", Naming(x)).Some? <==> x in Grant(grants, peer).value
  {
    ResolvesByName(x);
    hide Naming;
    hide Resolve;
    hide Supported;
    GrantedIsWhole(Granted(grants), peer, "a:1", Naming(x));
    hide Authorize;
    hide Grant;
    assert x in [x];
  }

  /** The condition is exact: a readable policy holding an endpoint with flow or scope decides some
      target differently once stored. */
  lemma {:induction false} StoringChangesADecision(p: Policy) returns (peer: string, target: string, r: Resolver)
    requires WellFormed(p) && Readable(p) && !Plain(p)
    ensures Authorize(Normal(p), peer, target, r) != Authorize(p, peer, target, r)
  {
    hide IsSet;
    hide Stripped;
    hide Authorize;
    hide Naming;
    var i, j :| 0 <= i < |p.grants| && 0 <= j < |p.grants[i].1| && p.grants[i].1[j] != Stripped(p.grants[i].1[j]);
    var endpoints := p.grants[i].1;
    var x := Stripped(endpoints[j]);
    peer, target, r := p.grants[i].0, "a:1", Naming(x);
    assert x !in endpoints by {
      NotStrippedTwice(p.grants[i], j);
    }
    GrantOfEntry(p.grants, i);
    GrantOfStored(p.grants, i);
    assert StrippedAll(endpoints)[j] == x;
    assert ReadableEntry(p.grants[i]);
    hide ReadableEntry;
    hide Supported;
    hide Grant;
    DecidesByName(p.grants, peer, x);
    DecidesByName(Stored(p.grants), peer, x);
  }

  lemma {:induction false} NotStrippedTwice(entry: (string, seq<Endpoint>), j: nat)
    requires ReadableEntry(entry) && j < |entry.1| && entry.1[j] != Stripped(entry.1[j])
    ensures Stripped(entry.1[j]) !in entry.1
  {
    StrippedFixed(entry.1[j]);
    hide Stripped;
    hide Supported;
    hide ValidFingerprint;
    forall k | 0 <= k < |entry.1| ensures entry.1[k] != Stripped(entry.1[j]) {
      if k < j {
        assert Stripped(entry.1[k]) != Stripped(entry.1[j]);
      } else if k > j {
        assert Stripped(entry.1[j]) != Stripped(entry.1[k]);
      }
    }
  }
}
