/** Which endpoints a peer may reach: the policy, its document, and the authorization decision. */
module TargetPolicy {
  import opened Basics
  import opened Order

  type U16 = n: int | 0 <= n < 0x1_0000
  type Octets4 = s: seq<Byte> | |s| == 4 witness [0, 0, 0, 0]
  type Octets16 = s: seq<Byte> | |s| == 16 witness seq(16, i => 0)

  datatype Ip = Ip4(octets4: Octets4) | Ip6(octets6: Octets16)

  /** A socket address; only an IPv6 one carries flow information and a scope. */
  datatype Endpoint =
    | V4(ip4: Octets4, port: U16)
    | V6(ip6: Octets16, port: U16, flow: nat, scope: nat)

  /** A set of endpoints as its ordered list, a table of grants as its entries in iteration order. */
  type Grants = seq<(string, seq<Endpoint>)>

  datatype Policy = Deny | LegacyAllow | Granted(grants: Grants) | Invalid

  datatype Target = Target(address: Ip, port: U16)

  /** The stored document; `peers` keeps the textual order of the object's members. */
  datatype PolicyDocument = PolicyDocument(mode: string, peers: Option<seq<(string, seq<Target>)>>)

  const LEGACY_ALLOW := "legacy-allow"
  const DENY_BY_DEFAULT := "deny-by-default"

  // ---------------------------------------------------------------- keys and order

  function Codes(s: string): (r: seq<int>)
    ensures |r| == |s|
  {
    seq(|s|, i requires 0 <= i < |s| => s[i] as int)
  }

  /** IPv4 before IPv6, then address, port, flow and scope. */
  function Key(e: Endpoint): seq<int> {
    match e
    case V4(ip, port) => [0] + ip + [port]
    case V6(ip, port, flow, scope) => [1] + ip + [port, flow, scope]
  }

  lemma {:induction false} KeyInjective(a: Endpoint, b: Endpoint)
    requires Key(a) == Key(b)
    ensures a == b
  {
    assert Key(a)[0] == Key(b)[0];
    match a
    case V4(ip, port) =>
      assert Key(a)[1..5] == ip && Key(b)[1..5] == b.ip4;
      assert Key(a)[5] == Key(b)[5];
    case V6(ip, port, flow, scope) =>
      assert Key(a)[1..17] == ip && Key(b)[1..17] == b.ip6;
      assert Key(a)[17] == Key(b)[17] && Key(a)[18] == Key(b)[18] && Key(a)[19] == Key(b)[19];
  }

  function EntryKey<T>(entry: (string, T)): seq<int> {
    Codes(entry.0)
  }

  /** An ordered set: strictly increasing keys. */
  predicate IsSet(s: seq<Endpoint>) {
    forall i, j :: 0 <= i < j < |s| ==> Less(Key(s[i]), Key(s[j]))
  }

  ghost predicate WellFormed(p: Policy) {
    p.Granted? ==>
      && (forall i, j :: 0 <= i < j < |p.grants| ==> p.grants[i].0 != p.grants[j].0)
      && (forall i :: 0 <= i < |p.grants| ==> IsSet(p.grants[i].1))
  }

  // ---------------------------------------------------------------- what a grant may name

  predicate ValidFingerprint(fp: string) {
    && |fp| == 28
    && fp[..5] == "wwp1:"
    && forall i :: 0 <= i < 23 ==>
         if i % 3 == 2 then fp[5 + i] == '-' else '0' <= fp[5 + i] <= '9' || 'A' <= fp[5 + i] <= 'F'
  }

  predicate LinkLocal(ip: Octets16) {
    ip[0] == 0xFE && 0x80 <= ip[1] < 0xC0
  }

  predicate Supported(e: Endpoint) {
    e.port != 0 && (e.V6? ==> e.scope == 0 && !LinkLocal(e.ip6))
  }

  function IpOf(e: Endpoint): Ip {
    if e.V4? then Ip4(e.ip4) else Ip6(e.ip6)
  }

  function TargetOf(e: Endpoint): Target {
    Target(IpOf(e), e.port)
  }

  function EndpointOf(t: Target): Endpoint {
    if t.address.Ip4? then V4(t.address.octets4, t.port) else V6(t.address.octets6, t.port, 0, 0)
  }

  /** What a stored endpoint comes back as: a document has no place for flow or scope. */
  function Stripped(e: Endpoint): Endpoint {
    EndpointOf(TargetOf(e))
  }

  // ---------------------------------------------------------------- reading a document

  /** Adds to an ordered set; `None` when the endpoint is there already. */
  function InsertEndpoint(s: seq<Endpoint>, e: Endpoint): Option<seq<Endpoint>> {
    if s == [] then Some([e])
    else if s[0] == e then None
    else if Less(Key(e), Key(s[0])) then Some([e] + s)
    else match InsertEndpoint(s[1..], e)
      case None => None
      case Some(r) => Some([s[0]] + r)
  }

  function Collect(s: seq<Endpoint>, targets: seq<Target>): Option<seq<Endpoint>>
    decreases |targets|
  {
    if targets == [] then Some(s)
    else if !Supported(EndpointOf(targets[0])) then None
    else match InsertEndpoint(s, EndpointOf(targets[0]))
      case None => None
      case Some(r) => Collect(r, targets[1..])
  }

  function CollectAll(peers: seq<(string, seq<Target>)>): Option<Grants> {
    if peers == [] then Some([])
    else match Collect([], peers[0].1)
      case None => None
      case Some(endpoints) =>
        match CollectAll(peers[1..])
        case None => None
        case Some(rest) => Some([(peers[0].0, endpoints)] + rest)
  }

  /** The object reader: member names must be fingerprints and differ; it yields them in order. */
  function Peers(members: seq<(string, seq<Target>)>): Option<seq<(string, seq<Target>)>> {
    if (forall i :: 0 <= i < |members| ==> ValidFingerprint(members[i].0))
       && (forall i, j :: 0 <= i < j < |members| ==> members[i].0 != members[j].0)
    then Some(SortBy(EntryKey, members))
    else None
  }

  /** `parse_file`: the document with its members in order. */
  function ParseFile(json: Codec<PolicyDocument>, bytes: seq<Byte>): Option<PolicyDocument> {
    match json.read(bytes)
    case None => None
    case Some(doc) =>
      if doc.peers.None? then Some(doc)
      else match Peers(doc.peers.value)
        case None => None
        case Some(ordered) => Some(doc.(peers := Some(ordered)))
  }

  function PolicyFrom(doc: PolicyDocument): Policy {
    if doc.mode == LEGACY_ALLOW && doc.peers.None? then LegacyAllow
    else if doc.mode == DENY_BY_DEFAULT && doc.peers.Some? then
      match CollectAll(doc.peers.value)
      case None => Invalid
      case Some(grants) => Granted(grants)
    else Invalid
  }

  // ---------------------------------------------------------------- writing a document

  function TargetsOf(endpoints: seq<Endpoint>): (r: seq<Target>)
    ensures |r| == |endpoints|
    ensures forall i :: 0 <= i < |r| ==> r[i] == TargetOf(endpoints[i])
  {
    if endpoints == [] then [] else [TargetOf(endpoints[0])] + TargetsOf(endpoints[1..])
  }

  function Members(grants: Grants): (r: seq<(string, seq<Target>)>)
    ensures |r| == |grants|
    ensures forall i :: 0 <= i < |r| ==> r[i] == (grants[i].0, TargetsOf(grants[i].1))
  {
    if grants == [] then [] else [(grants[0].0, TargetsOf(grants[0].1))] + Members(grants[1..])
  }

  function DocumentOf(p: Policy): Option<PolicyDocument> {
    match p
    case Deny => Some(PolicyDocument(DENY_BY_DEFAULT, Some([])))
    case LegacyAllow => Some(PolicyDocument(LEGACY_ALLOW, None))
    case Granted(grants) => Some(PolicyDocument(DENY_BY_DEFAULT, Some(Members(SortBy(EntryKey, grants)))))
    case Invalid => None
  }

  function Canonical(json: Codec<PolicyDocument>, p: Policy): Option<seq<Byte>> {
    match DocumentOf(p)
    case None => None
    case Some(doc) => Some(json.write(doc))
  }

  /** Parse, validate and write back in the one form. */
  function Canonicalize(json: Codec<PolicyDocument>, bytes: seq<Byte>): Option<seq<Byte>> {
    match ParseFile(json, bytes)
    case None => None
    case Some(doc) => Canonical(json, PolicyFrom(doc))
  }

  function ParseCanonical(json: Codec<PolicyDocument>, bytes: seq<Byte>): Option<Policy> {
    if Canonicalize(json, bytes) != Some(bytes) then None
    else match ParseFile(json, bytes)
      case None => None
      case Some(doc) => if PolicyFrom(doc).Invalid? then None else Some(PolicyFrom(doc))
  }

  // ---------------------------------------------------------------- what survives storage

  function StrippedAll(s: seq<Endpoint>): (r: seq<Endpoint>)
    ensures |r| == |s|
    ensures forall i :: 0 <= i < |r| ==> r[i] == Stripped(s[i])
  {
    if s == [] then [] else [Stripped(s[0])] + StrippedAll(s[1..])
  }

  function StrippedEntries(grants: Grants): (r: Grants)
    ensures |r| == |grants|
    ensures forall i :: 0 <= i < |r| ==> r[i] == (grants[i].0, StrippedAll(grants[i].1))
  {
    if grants == [] then [] else [(grants[0].0, StrippedAll(grants[0].1))] + StrippedEntries(grants[1..])
  }

  /** The grants in name order, each endpoint as it comes back. */
  function Stored(grants: Grants): Grants {
    StrippedEntries(SortBy(EntryKey, grants))
  }

  /** The form a policy has once stored and read back. */
  function Normal(p: Policy): Policy {
    match p
    case Deny => Granted([])
    case LegacyAllow => LegacyAllow
    case Granted(grants) => Granted(Stored(grants))
    case Invalid => Invalid
  }

  /** Exactly the policies whose document reads back. */
  predicate Readable(p: Policy) {
    match p
    case Deny => true
    case LegacyAllow => true
    case Granted(grants) =>
      forall i :: 0 <= i < |grants| ==> ReadableEntry(grants[i])
    case Invalid => false
  }

  predicate ReadableEntry(entry: (string, seq<Endpoint>)) {
    && ValidFingerprint(entry.0)
    && (forall j :: 0 <= j < |entry.1| ==> Supported(Stripped(entry.1[j])))
    && (forall j, k :: 0 <= j < k < |entry.1| ==> Stripped(entry.1[j]) != Stripped(entry.1[k]))
  }

  // ---------------------------------------------------------------- deciding

  /** What deciding needs from outside: how text becomes an address, and what a name resolves to. */
  datatype Resolver = Resolver(
    literal: string -> Option<Endpoint>,
    port: string -> Option<U16>,
    whitespace: char -> bool,
    lookup: (string, U16) -> Option<seq<Endpoint>>)

  function LastColon(s: string): (r: Option<nat>)
    ensures r.Some? ==> r.value < |s| && s[r.value] == ':'
  {
    if s == [] then None
    else if s[|s| - 1] == ':' then Some(|s| - 1)
    else LastColon(s[..|s| - 1])
  }

  predicate PlainHost(r: Resolver, host: string) {
    && host != ""
    && forall i :: 0 <= i < |host| ==> host[i] !in {':', '[', ']'} && !r.whitespace(host[i])
  }

  /** The endpoints a target stands for. */
  function Resolve(r: Resolver, target: string): Option<seq<Endpoint>> {
    match r.literal(target)
    case Some(e) => Some([e])
    case None =>
      match LastColon(target)
      case None => None
      case Some(i) =>
        match r.port(target[i + 1..])
        case None => None
        case Some(port) =>
          if !PlainHost(r, target[..i]) || port == 0 then None else r.lookup(target[..i], port)
  }

  function Grant(grants: Grants, peer: string): Option<seq<Endpoint>> {
    if grants == [] then None
    else if grants[0].0 == peer then Some(grants[0].1)
    else Grant(grants[1..], peer)
  }

  predicate Allows(p: Policy, peer: string, endpoints: seq<Endpoint>) {
    match p
    case LegacyAllow => true
    case Granted(grants) =>
      var allowed := Grant(grants, peer);
      allowed.Some? && forall i :: 0 <= i < |endpoints| ==> endpoints[i] in allowed.value
    case _ => false
  }

  /** The ordered set of a list. */
  function AsSet(s: seq<Endpoint>): seq<Endpoint> {
    if s == [] then []
    else
      var rest := AsSet(s[1..]);
      var r := InsertEndpoint(rest, s[0]);
      if r.Some? then r.value else rest
  }

  /** The endpoints a peer is let through to, or `None` when the target is denied. */
  function Authorize(p: Policy, peer: string, target: string, r: Resolver): Option<seq<Endpoint>> {
    if p.Deny? || p.Invalid? || '%' in target then None
    else match Resolve(r, target)
      case None => None
      case Some(found) =>
        var endpoints := AsSet(found);
        if endpoints == [] || (exists i :: 0 <= i < |endpoints| && !Supported(endpoints[i])) then None
        else if Allows(p, peer, endpoints) then Some(endpoints)
        else None
  }
}
