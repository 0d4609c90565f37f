# werewolfproxy in Dafny

A model of the state machines behind the werewolf daemon, with proofs over whole runs.

- **Governance chain** (`Statements`, `StatementReader`, `Governance`, `GovernanceSteps`, `Chains`,
  `ChainTheorems`, `ChainDecisions`, `Rotations`, `CoreBytes`, `GovernanceDocument`, `GovernanceSync`, `Ceremony`,
  `CeremonyOutcomes`). `Governance.Apply` is the step function on a chain head: pinned genesis, 7-of-10 signatures,
  rotation with key epochs, revocation, admission, activation, the fork fence and death. `Chains.Describes` says, without replaying anything, which head a
  list of applied statements calls for; every reachable head is that head. Signatures (Ed25519, section 5.1 of
  RFC 8032) are an arbitrary predicate and the hash an arbitrary function: where a result needs collision freedom
  it concludes "or here is a collision". `Rotations` treats the comment in `rotated` that a rotation never brings
  back a key it replaces.
- **Two-slot protected state** (`LocalFs`, `TargetPolicy`, `TargetPolicyTheorems`, `TargetPolicyEdits`,
  `TargetPolicyReading`, `ProtectedDocuments`, `ProtectedState`, `ProtectedTheorems`, `ProtectedRuns`,
  `ProtectedMigration`, `ProtectedLegacy`, `ProtectedStore`). A world is what the process sees, what is synced, and a
  list of faults still to come: every operation may fail early, fail after its visible effect, or be the last before a
  crash. A restart finds, name by name, the visible or the synced entry. A write left in doubt stops further commits until a restart, as the daemon does.
  No size precondition is needed: a replacement refuses more than 1 MiB, which is the limit documents are read with.
- **Terminal destruction** (`Tombstones`, `TombstoneSizes`, `Terminal`, `TerminalSteps`, `TerminalTheorems`,
  `TerminalOrder`, `TerminalMutations`, `TerminalRuns`, `TerminalStarts`, `TerminalDeaths`, `TerminalCommits`,
  `TerminalRespawn`, `TerminalMethods`). A
  history is a sequence of lives, each with its own commits, its own faults and its own crash. A start loads the committed state and every other file the daemon reads with
  it; each of those is readable or not under an arbitrary predicate on its bytes. `TerminalCommits` follows the
  commit that makes a head dead through to the end.
- **Inbound authority** (`AuthorityGate`, `AuthorityProgress`, `AuthorityStreams`, `Authority`). One operation is one step, since all run under one mutex.
- **Supporting structures** (`Routing`, `RoutingTheorems`, `RoutingMethods`, `Contacts`, `RateLimit`, `Fangs`,
  `FangMethods`).

Code that changes things step by step is written as methods and classes, and each is proved equal to a function;
the lemmas are about those functions. `Basics` and `Order` hold shared types, sorting and set lemmas.
JSON and base64 are arbitrary writers and readers of which only "reading undoes writing" is assumed, together with
two size facts: manifests, markers and selectors fit 4096 bytes, and the word "complete" is not longer than "incomplete".
Where a result depends on how long a Tombstone is, the JSON text and the length of base64 are spelled out
(`TombstoneSizes.Compact`).

Five properties turned out to need a condition the code does not check. Each condition is given exactly.

- A policy is written with fewer checks than it is read with, and without flow or scope (`PolicyReadsBack`,
  `StoringChangesADecision`, `WrittenButUnreadable`); every policy that was read meets the condition
  (`ParsedStorable`), and so does one that was edited, as long as the allowed endpoint carries no flow information
  (`EditsKeepStorable`); address text, from which the commands parse it, has no place for any.
- A finished Tombstone next to other entries is acted on only if its unfinished form fits 8 KiB
  (`StartCompletesIff`, `SomeDenIsStuck`); every retirement and every applied death fits (`SmallTombstonesFit`).
- A committed death is acted on at a start only if every file loaded beside the head is readable, since all are read
  before the head is looked at (`StartCompletesIff`, `OneMalformedFileBlocks`). The same condition decides any later start (`DestructionCompletes`).
- A process restarted over a directory whose Tombstone is visible but not synced destroys before the mark is durable
  (`RespawnSafeIff`).
- A rotation may exchange keys between slots, against the comment on it (`RotationMayExchange`,
  `RotationBringsBackIff`).

## Model

| member | source | states |
|---|---|---|
| `Statements.DecodeExact` | crates/werewolf-core/src/governance.rs:215-243 | whatever bytes decode accepts re-encode to exactly those bytes |
| `Statements.RoundTripIff` | crates/werewolf-core/src/governance.rs:111-243 | encode then decode returns the statement if and only if its counts fit their u8 and u16 fields and it is within 16 KiB |
| `Statements.CoreInjective` | crates/werewolf-core/src/governance.rs:172-183 | different cores have different encodings, truncating length casts included |
| `Statements.Layout` | crates/werewolf-core/src/governance.rs:100-213 | where every field of an encoded statement stands: version 1, network, sequence, previous hash, the six kind numbers, body length and body, and each signature with its slot |
| `Statements.SmallStatementsEncode` | crates/werewolf-core/src/governance.rs:111-243 | a statement of at most 10 signatures and a body within its rules is at most 2777 bytes and decodes back |
| `StatementReader.Reader.TakeBytes` | crates/werewolf-core/src/governance.rs:537-547 | the cursor reader takes exactly the next bytes, or fails without moving |
| `StatementReader.ReadBody` | crates/werewolf-core/src/governance.rs:135-169 | the cursor-based body reader computes the declarative decoder |
| `StatementReader.ReadStatement` | crates/werewolf-core/src/governance.rs:215-243 | the cursor-based statement reader computes the declarative decoder, error for error |
| `StatementReader.WriteStatement` | crates/werewolf-core/src/governance.rs:172-213 | the writer that pushes field by field produces the declarative encoding |
| `Governance.ApplyKeepsCheck` | crates/werewolf-core/src/governance.rs:306-431 | whatever apply returns from a head passing the structural check passes it again |
| `Governance.FollowKeepsCheck` | crates/werewolf-core/src/governance.rs:388-431 | each body kind keeps the structural check: epochs, sorted lists, roster apart from revoked, activation and death marks |
| `GovernanceSteps.CheckGenesis` | crates/werewolf-core/src/governance.rs:433-444 | the genesis loop accepts exactly ten distinct strong keys with threshold seven |
| `GovernanceSteps.CheckSignatures` | crates/werewolf-core/src/governance.rs:518-535 | the signature loop accepts exactly an increasing list of valid signatures, at least the threshold and at most one per key |
| `GovernanceSteps.OverlayEntries` | crates/werewolf-core/src/governance.rs:446-475 | writing the rotation entries one by one into a copy of the keys gives their overlay |
| `GovernanceSteps.Rotate` | crates/werewolf-core/src/governance.rs:446-475 | the rotation loop accepts and yields what the declarative rule says |
| `GovernanceSteps.Revoke` | crates/werewolf-core/src/governance.rs:388-431 | the insert and remove loops give the sorted union of revoked keys and the sorted roster without them |
| `GovernanceSteps.Admit` | crates/werewolf-core/src/governance.rs:388-431 | the admission loop gives the sorted union of roster and admitted keys |
| `GovernanceSteps.CheckAdmission` | crates/werewolf-core/src/governance.rs:477-494 | the admission loop accepts exactly strictly increasing strong keys that are neither on the roster nor revoked |
| `GovernanceSteps.ApplyStatement` | crates/werewolf-core/src/governance.rs:306-431 | the imperative apply, with every early return, computes the step function |
| `Chains.DescribesUnique` | crates/werewolf-core/src/governance.rs:245-291 | the applied statements determine every field of a head but the fork fence |
| `Chains.FoldDescribed` | crates/werewolf-core/src/governance.rs:306-431 | the head of an applied chain has the keys, revoked set, roster, hashes and marks that its statements describe, and every link was verified |
| `ChainTheorems.RunIsFold` | crates/werewolf-core/src/governance.rs:306-431 | any run of apply, with rejected, repeated and forking inputs, ends in the fold of the statements it applied |
| `ChainTheorems.ReachableHeads` | crates/werewolf-core/src/governance.rs:306-431 | every reachable head, forked ones included, passes the structural check and is described by its applied statements |
| `ChainTheorems.KeysBeforeVerified` | crates/werewolf-core/src/governance.rs:283-291 | in every reachable head the keys looked up for sequence s are the keys that verified the statement applied at s |
| `ChainTheorems.ForkAccountability` | crates/werewolf-core/src/governance.rs:362-379 | whenever apply reports a fork at s, at least four of the same ten slots validly signed two different cores for s |
| `ChainTheorems.ChainsAgree` | crates/werewolf-core/src/governance.rs:306-431 | two chains from one genesis are one chain, or four slots of the keys in force signed twice where they part |
| `ChainTheorems.NodesAgree` | crates/werewolf-core/src/governance.rs:306-431 | nodes pinned to one genesis hash agree after any two runs, or four slots signed twice, or the hash collides |
| `ChainTheorems.HashForcesChain` | crates/werewolf-core/src/governance.rs:172-194 | equal statement hashes force equal chains up to there, walking back the previous links, or a collision |
| `ChainTheorems.HeadHashDeterminesState` | crates/werewolf-core/src/governance.rs:172-194 | any two runs with equal head hashes agree on every field but the fork fence, or the hash collides |
| `ChainTheorems.StepExtends` | crates/werewolf-core/src/governance.rs:338-358 | a forked head moves only by a death chaining to its own hash and stays forked; a dead head answers only AlreadyApplied or an error |
| `ChainTheorems.RunsExtend` | crates/werewolf-core/src/governance.rs:306-431 | along every run the applied list and epochs extend, revoked keys stay revoked and off the roster, and marks never revert |
| `ChainTheorems.RevokedNeverAdmitted` | crates/werewolf-core/src/governance.rs:274-277 | a key revoked once is on no later roster and admitted by no later active head |
| `ChainDecisions.EveryAnswer` | crates/werewolf-core/src/governance.rs:306-431 | after any run every statement gets the one answer that the list of applied statements and the fence call for, error for error, and one that is applied leads to the head the longer list describes |
| `ChainDecisions.ForksAreReported` | crates/werewolf-core/src/governance.rs:362-379 | a rival of an applied statement fences a living, unfenced node if and only if a quorum of the keys in force at its place signed it, and is refused for its signatures otherwise |
| `ChainDecisions.FencedNodesDie` | crates/werewolf-core/src/governance.rs:338-358 | a fenced node takes exactly a death that chains to its own head with a quorum of the keys in force, and is then dead and still fenced |
| `ChainDecisions.FirstAnswer` | crates/werewolf-core/src/governance.rs:306-337 | without a head exactly the pinned genesis of ten distinct strong keys, signed by a quorum of them, is taken |
| `ChainDecisions.AdmittedExactly` | crates/werewolf-core/src/governance.rs:274-277 | a head admits a key always before activation, and after it if and only if the key was admitted and never revoked |
| `Rotations.RotationMayExchange` | crates/werewolf-core/src/governance.rs:446-475 | two slots may exchange their keys: such a rotation is valid and both replaced keys are still in force after it |
| `Rotations.RotationBringsBackIff` | crates/werewolf-core/src/governance.rs:446-475 | a valid rotation of distinct keys leaves no replaced key in force if and only if none of the keys it brings in is in force before it |
| `ChainTheorems.AppliedStatementsEncode` | crates/werewolf-core/src/governance.rs:204-243 | every statement apply can apply encodes within 2777 bytes and decodes back to itself |
| `CoreBytes.CoreCollisionIsHashCollision` | crates/werewolf-core/src/governance.rs:185-194 | two different cores with one hash are a collision of the underlying byte hash |
| `CoreBytes.SigningInputsDiffer` | crates/werewolf-core/src/governance.rs:185-194 | different cores give different signing inputs |
| `GovernanceDocument.UnhexHex` | crates/werewolfd/src/governance.rs:105-148 | hexadecimal text of bytes reads back as those bytes |
| `GovernanceDocument.ParseExact` | crates/werewolfd/src/governance.rs:105-148 | parse returns a head if and only if the bytes are that head's canonical form |
| `GovernanceDocument.ReachableHeadsPersist` | crates/werewolfd/src/governance.rs:105-185 | every reachable head, forked ones included, has a canonical form and is read back unchanged |
| `GovernanceSync.GovernanceRecords` | crates/werewolfd/src/discovery.rs:262-298 | the serving loop answers the contiguous run of recorded statements after the asked hash, at most k |
| `GovernanceSync.ServesExactly` | crates/werewolfd/src/discovery.rs:262-298 | with any archive the answer to a known hash is exactly the longest run of entries after its first place that match what was applied, up to k, and to an unknown one nothing |
| `GovernanceSync.SyncApply` | crates/werewolfd/src/control/mutation.rs:1133-1231 | the whole request, with archive writes and commits that may fail and a conflict to record, computes the declarative one; a node without a head stays without |
| `GovernanceSync.SavingIsPrefix` | crates/werewolfd/src/control/mutation.rs:1133-1182 | with failing saves the head is one that a first part of the statements leads to, apart from the fence; with none failing, the one they all lead to |
| `GovernanceSync.ConflictAccountability` | crates/werewolfd/src/control/mutation.rs:1184-1231 | a recorded conflict names culprits: at least four slots of the keys in force signed both statements for the next sequence |
| `GovernanceSync.RequestOnlyFences` | crates/werewolfd/src/control/mutation.rs:1133-1231 | a whole request moves the head along its own statements only, and raises the fence beyond that only for an accountable conflict |
| `GovernanceSync.ConflictIsRecorded` | crates/werewolfd/src/control/mutation.rs:1133-1231 | a request whose statements all pass or were applied before ends in the last head reached, fenced if and only if it carries two different statements that each apply there and the fence is saved |
| `GovernanceSync.RequestStops` | crates/werewolfd/src/control/mutation.rs:1133-1182 | the first statement that does not pass ends the request where it stands; a fork, once saved, fences the head |
| `GovernanceSync.SyncStaysOnChain` | crates/werewolfd/src/discovery.rs:262-298 | with archive entries missing or altered, whatever is served keeps the follower on the server's chain and never moves it back |
| `GovernanceSync.FilesComplete` | crates/werewolfd/src/discovery.rs:262-298 | archive files holding each applied statement's encoding form a complete archive |
| `GovernanceSync.CompleteServe` | crates/werewolfd/src/discovery.rs:262-298 | a complete archive serves exactly the next contiguous run of k statements |
| `GovernanceSync.CompleteRound` | crates/werewolfd/src/discovery.rs:262-298 | one round with a complete archive applies all it serves |
| `GovernanceSync.FollowerOnChain` | crates/werewolf-core/src/governance.rs:306-431 | a living follower whose head hash the server applied stands on the server's chain, or the hash collides |
| `GovernanceSync.SyncConverges` | crates/werewolfd/src/discovery.rs:262-298 | after ceil(gap/k) rounds the follower has the server's head apart from the fork fence, or the hash collides |
| `Ceremony.NormalKeysCanonical` | crates/werewolf-core/src/governance/tool.rs:184-209 | a draft sorts and deduplicates its keys into the one increasing list of the same members |
| `Ceremony.CombineParts` | crates/werewolf-core/src/governance/tool.rs:238-260 | the combining loop collects, sorts and checks the parts as the declarative rule says |
| `Ceremony.SignPart` | crates/werewolf-core/src/governance/tool.rs:211-222 | signing for a slot yields a part that combine accepts as honest |
| `Ceremony.CombineHonest` | crates/werewolf-core/src/governance/tool.rs:238-260 | honest parts of 7 to 10 distinct slots combine into a statement with a valid quorum |
| `Ceremony.CombineExact` | crates/werewolf-core/src/governance/tool.rs:238-260 | combining succeeds if and only if every part names this draft in readable form and no slot repeats, and yields their signatures in slot order |
| `Ceremony.CombineOrderFree` | crates/werewolf-core/src/governance/tool.rs:238-260 | combining any parts in any order gives the same answer, refusals included |
| `Ceremony.ReplayChain` | crates/werewolf-core/src/governance/tool.rs:262-273 | the replaying loop computes the fold of apply over the chain |
| `Ceremony.ReplayIsRun` | crates/werewolf-core/src/governance/tool.rs:262-273 | a successful replay is a run of apply pinned to the given genesis |
| `Ceremony.ReplayTwice` | crates/werewolf-core/src/governance/tool.rs:262-273 | replaying a successful chain followed by itself yields the same head |
| `CeremonyOutcomes.CeremonyCompletes` | crates/werewolf-core/src/governance/tool.rs:184-273 | on a living replayed head, whatever body is asked for, drafted after the last statement and signed by 7 to 10 distinct holders in any order, is applied if and only if the rules on that body hold, and then changes exactly what was asked: roster, revoked keys, slots, or one mark at the new sequence |
| `CeremonyOutcomes.AskedIffValid` | crates/werewolf-core/src/governance/tool.rs:184-209 | the rules on a body as it is asked for, in any order and with repeats, are the rules on the draft |
| `CeremonyOutcomes.ReplayReproduces` | crates/werewolf-core/src/governance/tool.rs:262-273 | replaying the statements a node has applied, whatever it was offered, gives the node's own head apart from the fence |
| `AuthorityGate.RegistryInvariant` | crates/werewolfd/src/authority.rs:123-235 | in every reachable gate each uncancelled session belongs to its peer's live generation and the gate is open; all quotas hold |
| `AuthorityGate.NumbersNeverReused` | crates/werewolfd/src/authority.rs:308-312 | no generation, session or connection number is handed out twice |
| `AuthorityGate.CounterRises` | crates/werewolfd/src/authority.rs:308-312 | counter and epoch never fall, and every number that appears is the one just taken |
| `AuthorityGate.DenialIsFinal` | crates/werewolfd/src/authority.rs:202-235 | after deny_peer no ticket that peer held before is current in any continuation, removal and re-adding included |
| `AuthorityGate.LockIsFinal` | crates/werewolfd/src/authority.rs:252-276 | after lock no earlier ticket is current in any continuation, even when the epoch is exhausted |
| `AuthorityGate.IssuedStaysIssuable` | crates/werewolfd/src/authority.rs:130-157 | an issued ticket is current when issued and stays within the reach of the two finality results |
| `AuthorityGate.NewerLockWins` | crates/werewolfd/src/authority.rs:266-276 | an open holding an epoch read before a newer lock fails in every continuation |
| `AuthorityGate.SessionTicketFixed` | crates/werewolfd/src/authority.rs:159-200 | a session keeps the ticket it was reserved with |
| `AuthorityGate.DeadSessionsAreSilent` | crates/werewolfd/src/authority.rs:348-365 | on a dead ticket no submit or publish succeeds again |
| `AuthorityGate.RevokedSessionsAreSilent` | crates/werewolfd/src/authority.rs:202-276 | after a denial or a lock the sessions concerned never submit or publish again |
| `AuthorityGate.StaleIsNotCancelled` | crates/werewolfd/src/authority.rs:270-276 | a reachable gate with a stale session that is not cancelled: reopening an open gate cancels nothing |
| `AuthorityProgress.TicketLastsUntil` | crates/werewolfd/src/authority.rs:202-276 | a ticket stays current through any run if and only if no lock, no reopening and no denial of its own peer comes |
| `AuthorityProgress.SessionLastsUntil` | crates/werewolfd/src/authority.rs:159-235 | a session exists exactly until its lease is dropped, is cancelled exactly once a lock or the denial of its own peer comes, and active exactly once published |
| `AuthorityProgress.SessionsWorkUntil` | crates/werewolfd/src/authority.rs:348-365 | a working session keeps submitting and publishing through any run if and only if its lease is not dropped and nothing ends its ticket |
| `AuthorityProgress.ReservedExactly` | crates/werewolfd/src/authority.rs:159-200 | a session is reserved if and only if the ticket is current and 1024 in all, 64 of the peer and 64 of the QUIC connection leave room; no other session changes |
| `AuthorityProgress.IssuedExactly` | crates/werewolfd/src/authority.rs:130-157 | a ticket is issued if and only if the gate is open and the peer authorized or, with room, new; it is current, and a new peer gets a new number |
| `AuthorityProgress.DenialConcernsOnePeer` | crates/werewolfd/src/authority.rs:202-223 | denial cancels every session of that peer and changes no session, generation or current ticket of another |
| `AuthorityProgress.RemovedPeersComeBack` | crates/werewolfd/src/authority.rs:225-235 | denied, removed and added back with anything in between: the removal succeeds and the next ticket on an open gate with room is issued under a number never used |
| `AuthorityProgress.LockedGatesReopen` | crates/werewolfd/src/authority.rs:252-276 | a lock forgets no peer or session; whatever else happens the epoch it answered reopens the gate, and a peer authorized before and not denied since gets a ticket under its old number |
| `Authority.Authority.NewConnection` | crates/werewolfd/src/authority.rs:123-129 | the method on the shared object is the Connection step |
| `Authority.Authority.NewTicket` | crates/werewolfd/src/authority.rs:130-157 | the method on the shared object is the ticket step, allocation and limit included |
| `Authority.Authority.ReserveSession` | crates/werewolfd/src/authority.rs:159-200 | reservation with its counting loops is the Reserve step: currency, three quotas, counter |
| `Authority.Authority.DenyPeer` | crates/werewolfd/src/authority.rs:202-223 | denial with its cancelling loop is the Deny step |
| `Authority.Authority.RemovedPeer` | crates/werewolfd/src/authority.rs:225-235 | removal is the Removed step |
| `Authority.Authority.LockGate` | crates/werewolfd/src/authority.rs:252-265 | locking with its cancelling loop is the Lock step |
| `Authority.Authority.OpenAfterDurable` | crates/werewolfd/src/authority.rs:270-276 | opening is the Open step |
| `Authority.Authority.PublishSession` | crates/werewolfd/src/authority.rs:348-359 | publication is the Publish step |
| `Authority.Authority.SubmitThrough` | crates/werewolfd/src/authority.rs:360-365 | submission is the Submit step and changes nothing |
| `Authority.Authority.ReleaseLease` | crates/werewolfd/src/authority.rs:385-396 | dropping a lease removes its session and nothing else |
| `AuthorityStreams.LeaseIsFinal` | crates/werewolfd/src/authority/writer.rs:30-39 | over any run of gate operations, leases and polls an installed lease is never replaced and nothing handed over is taken back |
| `AuthorityStreams.EveryByteWasCurrent` | crates/werewolfd/src/authority/writer.rs:52-68 | every byte handed over once a lease is installed was offered by a poll at which the session of that lease existed under its original ticket and the ticket was current |
| `AuthorityStreams.RevokedIsMute` | crates/werewolfd/src/authority/writer.rs:52-68 | after a lock or a denial the stream hands over nothing more, whatever happens to it and to the gate |
| `AuthorityStreams.PollsDeliver` | crates/werewolfd/src/authority/writer.rs:52-68 | a stream whose session works hands over exactly what the socket takes, after any run, unless the lease was dropped or its ticket ended |
| `Authority.AuthorityTcpStream.Authorize` | crates/werewolfd/src/authority/writer.rs:30-39 | installing a lease on the stream object is the Install step |
| `Authority.AuthorityTcpStream.PollWrite` | crates/werewolfd/src/authority/writer.rs:52-68 | a poll on the stream object is the Poll step: gated exactly when a lease is installed |
| `Authority.WriteAfterRevocation` | crates/werewolfd/src/authority/writer.rs:52-68 | a poll after a lock or a denial, and after any run since, fails and the output is what it was before the revocation |
| `LocalFs.ReplaceEnds` | crates/werewolf-core/src/local_fs/atomic.rs:92-178 | a replacement ends durable, without effect but for a temporary, or visible and unsynced; a create-only one never changes an existing entry, and without a failure a fitting one is durable |
| `TargetPolicyTheorems.InsertEndpointAdds` | crates/werewolfd/src/target_policy.rs:97-116 | insertion into the ordered endpoint set fails exactly on a member and otherwise adds it in place |
| `TargetPolicyTheorems.PolicyReadsBack` | crates/werewolfd/src/target_policy.rs:147-202 | a policy's canonical bytes parse to its normal form exactly when every grant is under a fingerprint and its endpoints, stripped of flow and scope, are supported and distinct |
| `TargetPolicyTheorems.GrantedIsWhole` | crates/werewolfd/src/target_policy.rs:312-356 | a target passes exactly when it resolves to supported endpoints that are all granted, and then with the whole resolved set |
| `TargetPolicyReading.AcceptedExactly` | crates/werewolfd/src/target_policy.rs:85-116 | a policy document is accepted if and only if it is legacy-allow without peers, or deny-by-default with distinct fingerprints whose targets are supported and distinct |
| `TargetPolicyReading.ReadingDecides` | crates/werewolfd/src/target_policy.rs:85-116 | the policy read from an accepted document lets a peer through to a target if and only if the document names every endpoint the target stands for under that peer |
| `TargetPolicyReading.LiteralsAreThemselves` | crates/werewolfd/src/target_policy.rs:312-356 | a literal address stands for itself alone, whatever names resolve to |
| `TargetPolicyReading.NamesAreLookedUp` | crates/werewolfd/src/target_policy.rs:312-356 | a name is looked up by the text before its last colon and the port after it, and only if it is plain |
| `TargetPolicyTheorems.StoringKeepsDecisions` | crates/werewolfd/src/target_policy.rs:169-202 | for a policy of plain endpoints every decision is the same before and after storage, for every peer, target and resolver |
| `TargetPolicyTheorems.StoringChangesADecision` | crates/werewolfd/src/target_policy.rs:169-202 | the condition is exact: a readable policy holding an endpoint with flow or scope decides some host name differently once stored |
| `TargetPolicyEdits.PolicyFromFile` | crates/werewolfd/src/target_policy.rs:97-116 | the nested loops compute the declarative reading, rejecting unsupported and repeated endpoints |
| `TargetPolicyEdits.AllowExact` | crates/werewolfd/src/target_policy.rs:208-228 | the in-place edit computes the declarative one |
| `TargetPolicyEdits.RemoveExact` | crates/werewolfd/src/target_policy.rs:232-256 | the in-place edit computes the declarative one, dropping an emptied peer |
| `TargetPolicyEdits.AllowAddsOne` | crates/werewolfd/src/target_policy.rs:208-228 | allowing succeeds exactly on expressible grants and adds exactly one endpoint for one peer |
| `TargetPolicyEdits.RemoveTakesOne` | crates/werewolfd/src/target_policy.rs:232-256 | removing succeeds exactly on an existing grant and takes exactly that one away |
| `TargetPolicyEdits.RemoveUndoesAllow` | crates/werewolfd/src/target_policy.rs:208-256 | allowing a new grant and removing it again leaves every decision as it was |
| `TargetPolicyEdits.EditsKeepStorable` | crates/werewolfd/src/target_policy.rs:208-256 | removing keeps a policy storable, and allowing does if and only if the allowed endpoint carries no flow information |
| `TargetPolicyEdits.ParsedStorable` | crates/werewolfd/src/target_policy.rs:156-167 | whatever the exact reader returns can be stored again without loss |
| `ProtectedDocuments.PackReadsBack` | crates/werewolfd/src/protected_state.rs:161-174 | a valid Pack list reads back sorted by name |
| `ProtectedDocuments.ProfilesReadBack` | crates/werewolfd/src/protected_state.rs:195-208 | a valid profile list reads back sorted by name |
| `ProtectedDocuments.ActiveReadsBack` | crates/werewolfd/src/protected_state.rs:210-223 | the active list reads back sorted and still valid against the sorted profiles |
| `ProtectedDocuments.StateReadsBack` | crates/werewolfd/src/protected_state.rs:225-238 | writing all documents of a state and parsing them gives its normal form, exactly when the policy is readable |
| `ProtectedDocuments.WrittenButUnreadable` | crates/werewolfd/src/protected_state.rs:225-238 | a state whose documents are written without complaint and refused when read: the writer checks less than the reader |
| `ProtectedState.NamesDiffer` | crates/werewolfd/src/protected_state.rs:142-144 | no two files of the store share a name and none looks like a temporary |
| `ProtectedTheorems.InactiveInvisible` | crates/werewolfd/src/protected_state.rs:383-476 | changes to the inactive slot and temporaries are invisible to a load |
| `ProtectedTheorems.WrittenLoads` | crates/werewolfd/src/protected_state.rs:428-476 | a fully written slot passes the manifest check and loads as what was written |
| `ProtectedTheorems.WriteSlotInvisible` | crates/werewolfd/src/protected_state.rs:564-593 | however writing the other slot ends, every restart still loads the active generation |
| `ProtectedTheorems.ActivationEnds` | crates/werewolfd/src/protected_state.rs:641-673 | the selector write ends with the old or exactly the complete new generation |
| `ProtectedTheorems.CommitEnds` | crates/werewolfd/src/protected_state.rs:637-673 | every way one commit can end: the next generation active, nothing changed, or one of the two after a restart |
| `ProtectedRuns.StoreIsCrashSafe` | crates/werewolfd/src/protected_state.rs:383-476 | over any run of commits, faults, crashes and restarts the store holds the last activated generation or, in doubt, exactly its complete successor |
| `ProtectedRuns.EveryStartLoads` | crates/werewolfd/src/protected_state.rs:428-476 | what any later start loads is one of those two, never a mix |
| `ProtectedRuns.GenerationsAlternate` | crates/werewolfd/src/protected_state.rs:641-673 | over any run the generation number rises one at a time and the slot alternates |
| `ProtectedRuns.StaleCommitChangesNothing` | crates/werewolfd/src/protected_state.rs:641-655 | no lost update: once a commit naming a generation is activated, another naming the same generation is rejected and changes no file, whatever commits, crashes and restarts come between |
| `ProtectedRuns.CommitThenLoad` | crates/werewolfd/src/protected_state.rs:428-476 | after an activated commit, loading gives the state's normal form, or is refused exactly when the policy is unreadable |
| `ProtectedMigration.LegacyLoads` | crates/werewolfd/src/protected_state.rs:598-633 | the flat files of a legacy Den, once read, always form a state that can be stored and loads as its normal form |
| `ProtectedMigration.MigrationIsCrashSafe` | crates/werewolfd/src/protected_state.rs:598-633 | an activated migration loads as the normal form of the legacy state; a crash or failure anywhere leaves a directory that loads as legacy, is refused, or loads as exactly that |
| `ProtectedLegacy.MigrationCarriesOver` | crates/werewolfd/src/protected_state.rs:478-633 | an activated migration loads a generation 1 that says what the flat files say: locked if and only if silver.json is absent or says so, the listed peers, profiles and active names sorted, decisions as target_policy.json has them; unreadable files leave the Den as it is, and no crash leaves a generation that says anything else |
| `ProtectedLegacy.LegacyExactly` | crates/werewolfd/src/protected_state.rs:498-552 | the flat files form a state if and only if each is absent or readable and valid |
| `ProtectedLegacy.HealthyMigrationActivates` | crates/werewolfd/src/protected_state.rs:598-633 | with a working directory and documents that fit a legacy Den migrates if and only if its flat files read |
| `ProtectedLegacy.DeletionsNeverDowngrade` | crates/werewolfd/src/protected_state.rs:383-427 | losing the marker, the selector or both never turns a Den with a generation back into a legacy one: it is refused |
| `ProtectedLegacy.DocumentsSayTheState` | crates/werewolfd/src/protected_state.rs:161-238 | the documents of a generation, read as flat files, say its state: the silver document says locked exactly when it is, the lists list, and the policy decides as it is written |
| `ProtectedMigration.ManifestBindsState` | crates/werewolfd/src/protected_state.rs:309-362 | two directories that load one generation under the same manifest load the same state, or the hash collides |
| `ProtectedMigration.HealthyCommitActivates` | crates/werewolfd/src/protected_state.rs:637-673 | with a working directory a commit naming the active generation whose documents fit activates the next |
| `ProtectedMigration.HeadsAreExact` | crates/werewolfd/src/governance.rs:105-148 | the stored chain head is an exact document, as the store's premises ask |
| `ProtectedStore.PrivateDirectory.ReplaceFile` | crates/werewolf-core/src/local_fs/atomic.rs:92-178 | the method on the directory is the replacement step |
| `ProtectedStore.WriteSlotFiles` | crates/werewolfd/src/protected_state.rs:564-593 | the writing loop, stopping at the first write not durable, is the declarative slot write |
| `ProtectedStore.CommitState` | crates/werewolfd/src/protected_state.rs:637-673 | the method on the directory is the declarative commit |
| `ProtectedStore.MigrateState` | crates/werewolfd/src/protected_state.rs:598-633 | the method on the directory is the declarative migration |
| `Tombstones.ParseExact` | crates/werewolf-core/src/tombstone.rs:125-206 | a Tombstone has one text: parse returns it if and only if the bytes are its encoding and it is sound |
| `Tombstones.TombstoneTells` | crates/werewolf-core/src/tombstone.rs:125-206 | what the file tells a reader: its kind and state, and for a death the network, sequence and hash of the very statement it carries |
| `TombstoneSizes.SmallTombstonesFit` | crates/werewolf-core/src/tombstone.rs:38-155 | every retirement, and every death whose statement has at most 2777 bytes, fits the limit in either form |
| `TombstoneSizes.AppliedDeathsFit` | crates/werewolf-core/src/tombstone.rs:82-100 | a Tombstone can be made for every death statement that apply applies |
| `TombstoneSizes.SizesMayStraddle` | crates/werewolf-core/src/tombstone.rs:147-155 | a Tombstone with more signatures than any applied one fits the limit finished and not unfinished |
| `TerminalSteps.DestroyDenCareful` | crates/werewolfd/src/terminal.rs:50-69 | whatever fails in it, destruction leaves the Tombstone alone and brings nothing back; success means clean and synced; without failures it succeeds |
| `TerminalOrder.PeltGoesFirst` | crates/werewolfd/src/terminal.rs:50-69 | however destruction ends and whatever a crash brings back, nothing but the Pelt was touched or nothing is left of the Pelt but zeros |
| `TerminalOrder.StateGoesNext` | crates/werewolfd/src/terminal.rs:50-69 | in the same way the protected state goes before the rest |
| `TerminalTheorems.CompletingEnds` | crates/werewolfd/src/terminal.rs:91-105 | complete is written only over a clean, synced Den, however the write ends |
| `TerminalTheorems.FinishEnds` | crates/werewolfd/src/terminal.rs:91-105 | after any ending of a destruction every restart finds the Tombstone, finished only if the Den is clean |
| `TerminalTheorems.BuryEnds` | crates/werewolfd/src/terminal.rs:168-180 | until the Tombstone is durable nothing is touched |
| `TerminalTheorems.ResumeEnds` | crates/werewolfd/src/terminal.rs:117-145 | resuming at a start: same guarantees, and a clean finished Den is left alone |
| `TerminalMutations.CommitsSpare` | crates/werewolfd/src/protected_state.rs:637-673 | whatever a living node commits, and however its commits fail, every file beside the store stays as it was |
| `TerminalMutations.BuryAfterCommits` | crates/werewolfd/src/terminal.rs:168-180 | dying after any commits leaves every file beside the store as it was, or the Tombstone standing |
| `TerminalRuns.LifeIsGuarded` | crates/werewolfd/src/main.rs:191-226 | one life with any commits, any failures and a crash anywhere leaves every file beside the store as it was, or the Tombstone it was about; without commits the same holds of every file |
| `TerminalRuns.NothingLostUnmarked` | crates/werewolfd/src/terminal.rs:50-180 | over any history, commits included, no entry beside the store is destroyed or altered unless a Tombstone is there, finished only over a clean Den; without commits the same holds of every entry |
| `TerminalDeaths.DoomIsFinal` | crates/werewolfd/src/terminal.rs:117-180 | over any history a Tombstone or a committed dead head keeps calling for the same Tombstone |
| `TerminalDeaths.StartCompletesIff` | crates/werewolfd/src/main.rs:191-226 | a start without failures completes the destruction of a doomed Den if and only if a Tombstone is there whose unfinished form fits or which is finished over a clean Den, or no Tombstone is there and the other files read; otherwise it touches nothing |
| `TerminalDeaths.OneStartFinishes` | crates/werewolfd/src/main.rs:191-226 | the completing start exits with the Den clean and the finished Tombstone in it |
| `TerminalDeaths.UnreadableStopsDeath` | crates/werewolfd/src/persistence.rs:85-150 | without a Tombstone an unreadable file beside the committed state makes every start of a dead head fail, before anything is marked or destroyed |
| `TerminalDeaths.OneMalformedFileBlocks` | crates/werewolfd/src/persistence.rs:85-150 | in every Den with a committed dead head, malformed bytes in one such file leave it doomed while every start fails and nothing is touched |
| `TerminalDeaths.UnmarkableStaysPut` | crates/werewolfd/src/terminal.rs:117-145 | a finished Tombstone beside other entries whose unfinished form is too long is never acted on, whatever fails |
| `TerminalDeaths.SomeDenIsStuck` | crates/werewolfd/src/terminal.rs:117-145 | such a Den exists under the real text sizes: doomed, and completed by no start |
| `TerminalDeaths.DestructionCompletes` | crates/werewolfd/src/terminal.rs:50-180 | after any history of failures and crashes the first start in which nothing fails completes the destruction of a doomed Den if and only if a start could have completed it at the outset, and otherwise touches nothing |
| `TerminalDeaths.SmallDestructionCompletes` | crates/werewolfd/src/terminal.rs:50-180 | for a retirement or an applied death that condition is: a Tombstone was there or the other files were readable |
| `TerminalRuns.LaterStartsChangeNothing` | crates/werewolfd/src/terminal.rs:117-145 | starts after completion change nothing but an empty lock file, whatever fails |
| `TerminalStarts.ServedExactly` | crates/werewolfd/src/main.rs:191-226 | a start without failures takes a Den into service if and only if it has no Tombstone, everything in it reads, and its head lives and shuts out no Pack member; it changes nothing but an empty lock, and whatever fails no other Den is served |
| `TerminalStarts.MembersStayByTheChain` | crates/werewolfd/src/governance.rs:28-45 | a member with a key is shut out if and only if the applied statements revoked that key or, once active, never admitted it |
| `TerminalStarts.DeathIsTheRecordedOne` | crates/werewolfd/src/main.rs:209-226 | the Tombstone a committed dead head calls for carries exactly the archived death statement of that head: same hash, at its sequence, byte for byte |
| `TerminalDeaths.MalformedStopsEverything` | crates/werewolfd/src/terminal.rs:117-121 | over any history a Den with an unreadable Tombstone loses nothing: the file is never taken for absent |
| `TerminalCommits.CommitOutside` | crates/werewolfd/src/protected_state.rs:637-673 | a commit, however it ends, changes only the files of the store, and activated leaves nothing unsynced |
| `TerminalCommits.CommittedDeathDooms` | crates/werewolfd/src/terminal.rs:217-251 | committing a dead head whose death is archived dooms the Den once activated; while in doubt every restart finds the old generation or a doomed Den |
| `TerminalCommits.DeathRunsItsCourse` | crates/werewolfd/src/terminal.rs:217-251 | from the activated commit of a dead head, through a failing burial and any history of restarts, the first start in which nothing fails completes the destruction |
| `TerminalRespawn.RespawnSafeIff` | crates/werewolfd/src/terminal.rs:91-145 | a new process over the same directory may act on the Tombstone it sees, without a machine crash ever losing entries unmarked, if and only if that Tombstone is also synced |
| `TerminalMethods.DestroyEntry` | crates/werewolf-core/src/local_fs/destroy.rs:133-146 | the method on the directory is the destroy step |
| `TerminalMethods.DestroyDenFiles` | crates/werewolfd/src/terminal.rs:50-69 | the destroying loops compute the declarative destruction, in listing order |
| `TerminalMethods.CheckClean` | crates/werewolfd/src/terminal.rs:72-80 | the checking loop computes the declarative check |
| `TerminalMethods.FinishDestruction` | crates/werewolfd/src/terminal.rs:91-105 | the method on the directory is the declarative finish |
| `TerminalMethods.CheckTombstone` | crates/werewolfd/src/terminal.rs:117-145 | the method on the directory is the declarative startup check |
| `TerminalMethods.StartNode` | crates/werewolfd/src/main.rs:191-226 | the method on the directory is the declarative start, the reading of all state files included |
| `TerminalMethods.Daemon.Retire` | crates/werewolfd/src/terminal.rs:254-331 | each outcome of the Tombstone write: reopened and unchanged, locked and degraded, or locked, destroyed and exiting; a wrong confirmation changes nothing |
| `TerminalMethods.Daemon.Die` | crates/werewolfd/src/terminal.rs:217-251 | the gate is locked before anything is written, and the Den is marked and destroyed |
| `Routing.BucketIsSharedPrefix` | crates/werewolf-core/src/nodeid.rs:70-80 | the bucket of a peer is the length of the bit prefix it shares with the local identifier |
| `Routing.DistancesDiffer` | crates/werewolf-core/src/nodeid.rs:34-42 | different identifiers lie at different distances from any target |
| `RoutingTheorems.InsertKeepsBucket` | crates/werewolf-core/src/kbucket.rs:32-47 | insertion puts the peer last, keeps the others, stores no identifier twice; a full bucket refuses and names its oldest |
| `RoutingTheorems.ReplaceKeepsBucket` | crates/werewolf-core/src/kbucket.rs:52-59 | replacement frees exactly the stale peer's place, or changes nothing |
| `RoutingTheorems.RemovedPeersAreGone` | crates/werewolf-core/src/routing.rs:32-38 | after a removal no peer of the table has that identifier, all others stay in order, and the answer is the peer that was there |
| `RoutingTheorems.AddedPeersAreThere` | crates/werewolf-core/src/routing.rs:23-30 | an added peer is in the table unless it is the node itself or its bucket is full of others, and every other peer stays |
| `RoutingTheorems.EveryTableIsGood` | crates/werewolf-core/src/routing.rs:23-38 | in every table built by adding and removing, peers sit in the bucket of their shared prefix, identifiers are unique, buckets hold at most 20, the local node is absent |
| `RoutingTheorems.PeersAreUnique` | crates/werewolf-core/src/routing.rs:64-69 | no identifier appears twice among all peers of a table |
| `RoutingTheorems.NearestAreClosest` | crates/werewolf-core/src/routing.rs:45-58 | nearest is exactly the limit closest peers, in strictly increasing distance |
| `RoutingTheorems.StoreRoundTrip` | crates/werewolf-core/src/peer_store.rs:30-45 | saving a table and rebuilding it gives the same table, recency order included |
| `RoutingMethods.ComputeDistance` | crates/werewolf-core/src/nodeid.rs:34-42 | the filling loop computes the distance |
| `RoutingMethods.FindBucket` | crates/werewolf-core/src/nodeid.rs:70-80 | the scanning loop computes the bucket index |
| `RoutingMethods.KBucket.Insert` | crates/werewolf-core/src/kbucket.rs:32-47 | the in-place insertion computes the declarative one |
| `RoutingMethods.KBucket.Remove` | crates/werewolf-core/src/kbucket.rs:61-64 | the in-place removal computes the declarative one |
| `RoutingMethods.KBucket.Replace` | crates/werewolf-core/src/kbucket.rs:52-59 | the in-place replacement computes the declarative one |
| `RoutingMethods.RoutingTable.Add` | crates/werewolf-core/src/routing.rs:23-30 | adding to the table of buckets computes the declarative addition and touches no other bucket |
| `RoutingMethods.RoutingTable.Remove` | crates/werewolf-core/src/routing.rs:32-38 | removing computes the declarative removal and touches no other bucket |
| `RoutingMethods.RoutingTable.NearestTo` | crates/werewolf-core/src/routing.rs:45-58 | collecting, sorting and truncating computes the declarative nearest |
| `RoutingMethods.RoutingTable.Save` | crates/werewolf-core/src/peer_store.rs:30-36 | what is saved of a table built by adding and removing rebuilds to that very table |
| `RoutingMethods.Rebuild` | crates/werewolf-core/src/peer_store.rs:37-45 | the rebuilding loop computes the declarative rebuild |
| `Contacts.MergeKeepsNewest` | crates/werewolfd/src/discovery.rs:125-145 | the merge keeps one record per key, none of the own key, each with the greatest sequence number among the valid ones |
| `Contacts.LearnKeepsTheBest` | crates/werewolfd/src/discovery.rs:125-154 | at most 256 are kept, never a non-Pack record before a Pack one, never an earlier expiry before a later one in a class |
| `Contacts.LearnSettles` | crates/werewolfd/src/discovery.rs:125-154 | learning nothing new changes neither content nor order |
| `Contacts.LearnRecords` | crates/werewolfd/src/discovery.rs:125-154 | the merging loop, sort and truncation compute the declarative merge |
| `Contacts.AnswerIsNearest` | crates/werewolfd/src/discovery.rs:56-84 | an answer names only valid Pack contacts other than the requester and leaves out none that is closer than one it names |
| `RateLimit.TokensConserved` | crates/werewolfd/src/discovery.rs:178-192 | calls allowed plus tokens left never exceed the burst plus the refill |
| `RateLimit.WindowBound` | crates/werewolfd/src/discovery.rs:178-192 | in any window of length d a caller gets at most 16 + 4d calls through |
| `RateLimit.PatientCallersPass` | crates/werewolfd/src/discovery.rs:178-192 | calls spaced at least a quarter second are never refused |
| `RateLimit.NewCallersBurst` | crates/werewolfd/src/discovery.rs:178-192 | the first sixteen calls of a new caller pass however close together, and of any number at one instant exactly sixteen |
| `RateLimit.RestedCallersBurst` | crates/werewolfd/src/discovery.rs:178-192 | four quiet seconds restore the whole burst |
| `RateLimit.CallersAreSeparate` | crates/werewolfd/src/discovery.rs:171-192 | among interleaved callers each fares as if it were alone |
| `RateLimit.PeerWindowBound` | crates/werewolfd/src/discovery.rs:171-192 | among any callers' interleaved calls one peer gets at most 16 + 4d through in a window of length d |
| `RateLimit.RpcLimiter.AllowAt` | crates/werewolfd/src/discovery.rs:178-192 | the method on the map of buckets is the declarative call |
| `Fangs.EveryInterleavingKeepsInv` | crates/werewolfd/src/fang_registry.rs:59-130 | under every interleaving of openings, spawns, ends, removals and any number of closes under way at once, with identifiers reused, a running child is in its Fang's tracker, in the hands of the close that detached it, or told to stop, and a closed Fang admits no one |
| `Fangs.NoSpawnOnceGone` | crates/werewolfd/src/fang_registry.rs:204-299 | once a Fang has left the registry, detached, terminated or removed as finished, no spawn on it ever succeeds |
| `Fangs.SpawnsExactly` | crates/werewolfd/src/fang_registry.rs:59-70 | under every interleaving a spawn succeeds if and only if the Fang is in the registry and its listener runs; the child is then running and tracked, and no other Fang is touched |
| `Fangs.OpensExactly` | crates/werewolfd/src/fang_registry.rs:254-275 | opening under a free name registers a new Fang with a running listener that may spawn, and only that |
| `Fangs.RemovalsExactly` | crates/werewolfd/src/fang_registry.rs:204-299 | terminating takes exactly the named Fangs out of the registry with their trackers closed and emptied, cleaning up exactly those whose listener has ended, and neither touches another |
| `Fangs.DroppedAreTold` | crates/werewolfd/src/fang_registry.rs:204-231 | every running task of a Fang terminated without a barrier has been told to stop, then and ever after |
| `Fangs.QuiescedIsQuiet` | crates/werewolfd/src/fang_registry.rs:111-130 | when one close has quiesced no listener or child of a Fang it detached runs, then or later, whatever other closes do |
| `Fangs.OthersUntouched` | crates/werewolfd/src/fang_registry.rs:232-253 | a turn of one close changes nothing of other closes and of Fangs it has not detached, and stops no task |
| `Fangs.QuiesceFinishes` | crates/werewolfd/src/fang_registry.rs:111-130 | once the tasks of the Fangs it detached have ended, a close finishes within six of its own turns under every interleaving: it waits for nothing else |
| `FangMethods.FangCancellation.SpawnChild` | crates/werewolfd/src/fang_registry.rs:59-70 | a spawn on the shared tracker is the Spawn step of the interleaved model |
| `FangMethods.TakeAll` | crates/werewolfd/src/fang_registry.rs:86-130 | emptying the trackers handed over collects exactly the children, and leaves exactly the trackers, of the Take step |
| `FangMethods.ClosingDetaches` | crates/werewolfd/src/fang_registry.rs:232-253 | the detaching turns of one close, taken in a row, close exactly the named Fangs' trackers with their children untouched and leave every other Fang and every task alone |
| `FangMethods.FangRegistry.DetachIds` | crates/werewolfd/src/fang_registry.rs:232-253 | the loop over the shared trackers leaves registry and every tracker as those turns do, hands over exactly the named trackers and listeners, keeps the other records in order, and counts the names that have a record |

## Left out

- Cryptography, TLS, the QUIC exporter and random generation: arbitrary predicates and functions.
- JSON text, whitespace and escaping; base64 alphabets; UTF-8: arbitrary codecs as described above.
- File types, owners, modes and links: every entry is a private regular file, and the lock is inert when empty.
- Histories restart machines: every restart between two lives resolves each unsynced name. A process restart over the same unsynced directory is treated for one finish only (`RespawnSafeIff`).
- What a living node writes outside the store and the Tombstone: archived statements, the contact cache, service and route lists.
- Runtime files that a start reads without refusing on them, and the contents of those it does: only whether they are readable.
- The sequence number of a statement has no upper bound here; the u64 addition overflows only after 2^64 applied statements, and `CeremonyCompletes` carries the bound.
- Record-level syntax checks of Pack members and profiles (names, addresses, key text): arbitrary predicates; counts and uniqueness are modelled.
- Read failures inside one load are one failure: any of them ends the load without effect.
- Transports, sockets, DNS and timeouts; the resolver's answer is an arbitrary input, and so is the parsing of address and port text.
- `cleanup`, `silver_watch`, `summary` and the connect poll of the gate: waiting and display.
- Flush and shutdown polls of the gated stream: they pass the same gate as a write and hand over no bytes.
- A termination that is dropped instead of quiesced, and which peers' Fangs `terminate_peer` names: the list is an input.
- Contacts: refreshing and signing the own record, and the record's own codec.
- Floating-point peer fields and the real clock: peers carry no floats, and calls carry their time as a real number.
- `admission.rs`, `route.rs`, `service.rs`, `published.rs`: quota counting and list validation, easier forms of what is here.
- `control.rs`, `cli.rs`, `config.rs` and `werewolfctl`: request plumbing.
- `tools/` and `packaging/`.
