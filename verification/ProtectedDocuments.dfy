/** One generation of protected state as documents: what is written, what is read back. */
module ProtectedDocuments {
  import opened Basics
  import opened Order
  import Governance
  import TP = TargetPolicy
  import TPT = TargetPolicyTheorems

  datatype Trust = Stranger | Known | Packmate | Alpha

  datatype PeerRecord = PeerRecord(
    name: string, fingerprint: string, address: string, trust: Trust, publicKey: Option<string>)

  datatype FangProfile = FangProfile(name: string, peer: string, local: string, remote: string, transport: string)

  datatype SilverDocument = SilverDocument(version: nat, mode: string)

  datatype State = State(
    silverLocked: bool,
    peers: seq<PeerRecord>,
    policy: TP.Policy,
    profiles: seq<FangProfile>,
    active: seq<string>,
    governance: Option<Governance.Head>)

  datatype Documents = Documents(
    pack: seq<Byte>,
    silver: seq<Byte>,
    policy: seq<Byte>,
    fangs: seq<Byte>,
    active: seq<Byte>,
    governance: Option<seq<Byte>>)

  /** A document type with one accepted text per value. */
  datatype Exact<!T(!new)> = Exact(canonical: T -> Option<seq<Byte>>, parse: seq<Byte> -> Option<T>) {
    ghost predicate Inverse() {
      forall value: T, bytes :: parse(bytes) == Some(value) <==> canonical(value) == Some(bytes)
    }
  }

  /** The text formats, and the checks on single records. */
  datatype Formats = Formats(
    pack: Codec<seq<PeerRecord>>,
    silver: Codec<SilverDocument>,
    policy: Codec<TP.PolicyDocument>,
    profiles: Codec<seq<FangProfile>>,
    active: Codec<seq<string>>,
    governance: Exact<Governance.Head>,
    peerOk: PeerRecord -> bool,
    profileOk: FangProfile -> bool,
    key: string -> Bytes32)
  {
    ghost predicate Faithful() {
      && pack.Faithful()
      && silver.Faithful()
      && policy.Faithful()
      && profiles.Faithful()
      && active.Faithful()
      && governance.Inverse()
    }
  }

  // ---------------------------------------------------------------- which lists are valid

  const PACK_LIMIT := 1024
  const PROFILE_LIMIT := 512

  function PeerClash(f: Formats): (PeerRecord, PeerRecord) -> bool {
    (a: PeerRecord, b: PeerRecord) =>
      || a.name == b.name
      || a.fingerprint == b.fingerprint
      || (a.publicKey.Some? && b.publicKey.Some? && f.key(a.publicKey.value) == f.key(b.publicKey.value))
  }

  function ProfileClash(): (FangProfile, FangProfile) -> bool {
    (a: FangProfile, b: FangProfile) => a.name == b.name
  }

  function NameClash(): (string, string) -> bool {
    (a: string, b: string) => a == b
  }

  predicate ValidPack(f: Formats, peers: seq<PeerRecord>) {
    && |peers| <= PACK_LIMIT
    && (forall i :: 0 <= i < |peers| ==> f.peerOk(peers[i]))
    && Apart(PeerClash(f), peers)
  }

  predicate ValidProfiles(f: Formats, profiles: seq<FangProfile>) {
    && |profiles| <= PROFILE_LIMIT
    && (forall i :: 0 <= i < |profiles| ==> f.profileOk(profiles[i]))
    && Apart(ProfileClash(), profiles)
  }

  predicate HasProfile(profiles: seq<FangProfile>, name: string) {
    exists i :: 0 <= i < |profiles| && profiles[i].name == name
  }

  predicate ValidActive(active: seq<string>, profiles: seq<FangProfile>) {
    && |active| <= PROFILE_LIMIT
    && Apart(NameClash(), active)
    && forall i :: 0 <= i < |active| ==> HasProfile(profiles, active[i])
  }

  // ---------------------------------------------------------------- writing and reading

  function PeerKey(p: PeerRecord): seq<int> {
    TP.Codes(p.name)
  }

  function ProfileKey(p: FangProfile): seq<int> {
    TP.Codes(p.name)
  }

  function CanonicalPack(f: Formats, peers: seq<PeerRecord>): Option<seq<Byte>> {
    if ValidPack(f, peers) then Some(f.pack.write(SortBy(PeerKey, peers))) else None
  }

  function ParsePack(f: Formats, bytes: seq<Byte>): Option<seq<PeerRecord>> {
    var peers :- f.pack.read(bytes);
    if CanonicalPack(f, peers) == Some(bytes) then Some(peers) else None
  }

  function CanonicalProfiles(f: Formats, profiles: seq<FangProfile>): Option<seq<Byte>> {
    if ValidProfiles(f, profiles) then Some(f.profiles.write(SortBy(ProfileKey, profiles))) else None
  }

  function ParseProfiles(f: Formats, bytes: seq<Byte>): Option<seq<FangProfile>> {
    var profiles :- f.profiles.read(bytes);
    if CanonicalProfiles(f, profiles) == Some(bytes) then Some(profiles) else None
  }

  function CanonicalActive(f: Formats, active: seq<string>, profiles: seq<FangProfile>): Option<seq<Byte>> {
    if ValidActive(active, profiles) then Some(f.active.write(SortBy(TP.Codes, active))) else None
  }

  function ParseActive(f: Formats, bytes: seq<Byte>, profiles: seq<FangProfile>): Option<seq<string>> {
    var active :- f.active.read(bytes);
    if CanonicalActive(f, active, profiles) == Some(bytes) then Some(active) else None
  }

  function CanonicalSilver(f: Formats, locked: bool): seq<Byte> {
    f.silver.write(SilverDocument(1, if locked then "locked" else "open"))
  }

  function ParseSilver(f: Formats, bytes: seq<Byte>): Option<bool> {
    var value :- f.silver.read(bytes);
    if f.silver.write(value) != bytes || value.version != 1 then None
    else if value.mode == "locked" then Some(true)
    else if value.mode == "open" then Some(false)
    else None
  }

  function CanonicalHead(f: Formats, head: Option<Governance.Head>): Option<Option<seq<Byte>>> {
    match head
    case None => Some(None)
    case Some(h) => var bytes :- f.governance.canonical(h); Some(Some(bytes))
  }

  function ParseHead(f: Formats, bytes: Option<seq<Byte>>): Option<Option<Governance.Head>> {
    match bytes
    case None => Some(None)
    case Some(b) => var h :- f.governance.parse(b); Some(Some(h))
  }

  /** Every document of a state, or nothing when some part of it is invalid. */
  function DocumentsOf(f: Formats, s: State): Option<Documents> {
    var pack :- CanonicalPack(f, s.peers);
    var policy :- TP.Canonical(f.policy, s.policy);
    var fangs :- CanonicalProfiles(f, s.profiles);
    var active :- CanonicalActive(f, s.active, s.profiles);
    var governance :- CanonicalHead(f, s.governance);
    Some(Documents(pack, CanonicalSilver(f, s.silverLocked), policy, fangs, active, governance))
  }

  function ParseDocuments(f: Formats, d: Documents): Option<State> {
    var silver :- ParseSilver(f, d.silver);
    var peers :- ParsePack(f, d.pack);
    var policy :- TP.ParseCanonical(f.policy, d.policy);
    var profiles :- ParseProfiles(f, d.fangs);
    var active :- ParseActive(f, d.active, profiles);
    var governance :- ParseHead(f, d.governance);
    Some(State(silver, peers, policy, profiles, active, governance))
  }

  /** A state as storage gives it back: lists by name, the policy in its stored form. */
  function Normal(s: State): State {
    State(
      s.silverLocked,
      SortBy(PeerKey, s.peers),
      TP.Normal(s.policy),
      SortBy(ProfileKey, s.profiles),
      SortBy(TP.Codes, s.active),
      s.governance)
  }

  // ---------------------------------------------------------------- reading back

  lemma {:induction false} PackReadsBack(f: Formats, peers: seq<PeerRecord>)
    requires f.pack.Faithful() && ValidPack(f, peers)
    ensures ParsePack(f, CanonicalPack(f, peers).value) == Some(SortBy(PeerKey, peers))
  {
    hide SortBy;
    var ordered := SortBy(PeerKey, peers);
    forall i | 0 <= i < |ordered| ensures f.peerOk(ordered[i]) {
      SameMembers(ordered, peers, ordered[i]);
    }
    ApartPermuted(PeerClash(f), peers, ordered);
    SortBySorted(PeerKey, peers);
    SortByFixed(PeerKey, ordered);
    assert f.pack.read(f.pack.write(ordered)) == Some(ordered);
  }

  lemma {:induction false} ProfilesReadBack(f: Formats, profiles: seq<FangProfile>)
    requires f.profiles.Faithful() && ValidProfiles(f, profiles)
    ensures ParseProfiles(f, CanonicalProfiles(f, profiles).value) == Some(SortBy(ProfileKey, profiles))
  {
    hide SortBy;
    var ordered := SortBy(ProfileKey, profiles);
    forall i | 0 <= i < |ordered| ensures f.profileOk(ordered[i]) {
      SameMembers(ordered, profiles, ordered[i]);
    }
    ApartPermuted(ProfileClash(), profiles, ordered);
    SortBySorted(ProfileKey, profiles);
    SortByFixed(ProfileKey, ordered);
    assert f.profiles.read(f.profiles.write(ordered)) == Some(ordered);
  }

  lemma {:induction false} ActiveReadsBack(f: Formats, active: seq<string>, profiles: seq<FangProfile>)
    requires f.active.Faithful() && ValidActive(active, profiles)
    ensures ParseActive(f, CanonicalActive(f, active, profiles).value, SortBy(ProfileKey, profiles))
      == Some(SortBy(TP.Codes, active))
  {
    hide SortBy;
    var ordered := SortBy(TP.Codes, active);
    var stored := SortBy(ProfileKey, profiles);
    forall i | 0 <= i < |ordered| ensures HasProfile(stored, ordered[i]) {
      SameMembers(ordered, active, ordered[i]);
      var j :| 0 <= j < |profiles| && profiles[j].name == ordered[i];
      SameMembers(stored, profiles, profiles[j]);
    }
    ApartPermuted(NameClash(), active, ordered);
    SortBySorted(TP.Codes, active);
    SortByFixed(TP.Codes, ordered);
    assert f.active.read(f.active.write(ordered)) == Some(ordered);
  }

  lemma {:induction false} SilverReadsBack(f: Formats, locked: bool)
    requires f.silver.Faithful()
    ensures ParseSilver(f, CanonicalSilver(f, locked)) == Some(locked)
  {
    assert "locked"[0] != "open"[0];
  }

  /** Writing a state and reading it back gives its normal form. Only a policy can be written in a
      form that does not read back: one naming a malformed fingerprint or an unusable endpoint. */
  lemma {:induction false} StateReadsBack(f: Formats, s: State)
    requires f.Faithful() && TP.WellFormed(s.policy) && DocumentsOf(f, s).Some?
    ensures ParseDocuments(f, DocumentsOf(f, s).value) == if TP.Readable(s.policy) then Some(Normal(s)) else None
  {
    hide ValidPack;
    hide ValidProfiles;
    hide ValidActive;
    hide TP.WellFormed;
    hide TP.Readable;
    hide TP.Canonical;
    hide TP.ParseCanonical;
    hide TP.Normal;
    hide SortBy;
    PackReadsBack(f, s.peers);
    ProfilesReadBack(f, s.profiles);
    ActiveReadsBack(f, s.active, s.profiles);
    SilverReadsBack(f, s.silverLocked);
    InvalidHasNoDocument(f, s.policy);
    TPT.PolicyReadsBack(f.policy, s.policy);
    hide ParsePack;
    hide ParseProfiles;
    hide ParseActive;
    hide ParseSilver;
    hide CanonicalSilver;
    if s.governance.Some? {
      assert f.governance.parse(f.governance.canonical(s.governance.value).value) == s.governance;
    }
  }

  lemma {:induction false} InvalidHasNoDocument(f: Formats, p: TP.Policy)
    ensures p.Invalid? ==> TP.Canonical(f.policy, p).None?
  {
  }

  /** Writing checks less than reading: a grant under a name that is no fingerprint is written without
      complaint and refused afterwards. */
  lemma {:induction false} WrittenButUnreadable(f: Formats) returns (s: State)
    requires f.Faithful()
    ensures DocumentsOf(f, s).Some?
    ensures ParseDocuments(f, DocumentsOf(f, s).value).None?
  {
    s := State(true, [], TP.Granted([("", [])]), [], [], None);
    assert !TP.ReadableEntry(s.policy.grants[0]);
    assert TP.IsSet(s.policy.grants[0].1);
    StateReadsBack(f, s);
  }
}
