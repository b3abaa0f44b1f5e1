# A verified model of the 0g-kms cluster

0g-kms is a threshold key-management cluster. A committee of nodes shares one master secret; an
application key is derived from partial signatures of any `t` of them, and the committee re-shares the
master when a node has lost its share or when an operator asks for a refresh. This project models the
parts of the cluster where the hard arguments are, in Dafny 4.11, and proves what they rest on.

`dafny verify dfyconfig.toml` checks everything.

| file | what it holds |
|---|---|
| `PrimeField`, `Polynomial`, `Lagrange` | integers modulo a prime, inverses by the extended Euclidean algorithm, the root-counting theorem, interpolation at zero |
| `Threshold`, `Reshare` | partials, combination, verification; what a reshare or refresh session outputs |
| `Lifecycle`, `Master` | the cluster as a transition system (boot, reload, probe, genesis, recovery, dealing, crash) and its whole-run theorems about the master |
| `MasterFork`, `ForkRun` | when a cluster with one genesis keeps one master: the exact condition, and the run that forks it otherwise |
| `Membership`, `Epochs`, `EpochReuse` | committee assembly, dealer choice, recovery gates, alert line; epochs over runs with crashes and restarts; the runs that reuse an epoch and the exact conditions they leave |
| `PeerTable`, `Gossip` | the peer table in place; runs of gossip with delayed, reordered and repeated messages |
| `SessionBarrier` | the four-round all-to-all session driver |
| `Collector`, `Messages`, `Derivation` | the partial collector; the byte formats that are hashed and signed; derivations in the states that runs of the cluster reach |
| `VerdictCache`, `FetchLocks`, `NodeListCache` | the attestation verdict cache, its per-key fetch locks, and the on-chain signer-list cache |
| `Formation` | the probe that decides whether genesis may start |
| `Collections` | optional values and facts about finite sets |

## How to read the model

- Scalars are integers taken modulo a prime `p`, which is arbitrary. A group element is its discrete
  logarithm to a fixed generator, so `s * H` is a product of scalars and a pairing check is equality of
  two products. A polynomial is its list of coefficients.
- A key-generation session is known by its contributions: one polynomial of at most `t` coefficients
  from each participant, with a dealer's intercept its share times its Lagrange weight and a recovering
  node's intercept zero. A new share is the sum of the contributions at the node's id.
- Object state that the program changes in place is a class (`Verifier`, `NodeList`, `Peers`, `Buffer`).
  Its methods are tied to functions on values, and the whole-run theorems are about those functions.
- Every wait in the program is a point where other tasks may run. The transition systems have one step
  for each stretch of code between two waits; the verdict gate and the signer-list lookups take what
  other requests do during their waits as parameters.

## What turned out not to hold as documented

- `majority` is documented to keep two subsets from forking an epoch (`src/init.rs:347-348`). If every
  restart takes the last share stored, `EpochReuse.EpochsAreUniqueExactlyWhen` gives the exact condition:
  epochs are unique over all runs if and only if `2 * max(t, n / 2) >= n`. Even committees meet it; an odd
  committee needs a threshold above half, and `EpochReuse.SplitRunReusesAnEpoch` is the run that breaks
  it otherwise. But a restart prefers a blob from the environment or the configuration, of whatever age
  (`src/init.rs:429-435`), and with such restarts no committee of two or more is safe:
  `EpochReuse.StaleRestartsReuseAnEpoch` is a run for every `n >= 2` and every threshold in which all
  members restart on an older share and refresh again. In both runs every view is true, and in the
  second every freshness test knows all shares then held. What does hold for every committee is
  `Epochs.LinkedSessionsGrow`.
- The liveness of a peer-table entry is documented as direct evidence (`src/server.rs:30-33`).
  `Gossip.LivenessIsDirectExactlyWhen` shows that this holds in every run exactly when no two nodes
  share a URL that a third one gossips with. Key rotation makes two addresses share a URL for a while.
- A session with a single participant never passes its first barrier
  (`SessionBarrier.LoneParticipantNeverFinishes`).
- A node that knows no group key has nothing to compare a recovery's outcome with. With one genesis
  outcome, the whole cluster has one master in every run if and only if the threshold is 1 or the
  committee size (`ForkRun.OneMasterExactlyWhen`); for every other threshold `ForkRun.ForkingRun` is a run
  that ends with two keys, although every recovery in it is asked for on a true view that passes the
  gates and every reload passes the freshness test. A node's own key is constant all the same
  (`Master.KeyNeverChanges`), and `Master.CleanRunHasOneMaster` names what has to be added: keyless
  nodes recover from dealers of one session.
- At a threshold of one the collector stops at its own partial, which the pairing library does not
  combine, so no key is ever issued (`Collector.CollectAndDprf`, `Derivation.DeriveFromHeldShares`).
- The fetch locks of the verdict gate are documented as single-flight per key, yet a request drops the
  lock map's entry while others may still wait for that lock, and waits before it does
  (`src/verifier.rs:407-408`). `FetchLocks.LateWaiterFetchesAlongside` and
  `FetchLocks.LateDropFetchesAlongside` are runs with two fetches for one key at once.
  `FetchLocks.LapseIsSafeExactlyWhen` is the exact condition at the moment a stored decision lapses: nobody
  is about to drop the entry, and nobody is at a dropped lock. Where it is met, admissions are fresh in
  the order in which answers were received (`FetchLocks.SettledGateIsFreshByReceipt`); where it is not, a
  positive verdict stored late can hide a negative one received after it
  (`FetchLocks.DoubleFetchHidesANegative`).
- Dropping old entries from a full verdict cache is meant to lose only dead weight. That holds as long as
  no restamp is older than the confirmation it keeps; `VerdictCache.EvictionIsInvisibleExactlyWhen` is
  the exact condition, and overlapping fetches can break it (`VerdictCache.OverlapBackdates`).

## Model

| member | source | states |
|---|---|---|
| `Lagrange.ComputeAtZero` | src/crypto.rs:475-491 | the nested accumulation loops compute the interpolation at zero, for any prime and any distinct points |
| `Polynomial.TooManyRoots` | src/crypto.rs:474-491 | a polynomial with at most `k` coefficients and `k` distinct roots is zero at every point: why `t` points determine a sharing |
| `Lagrange.InterpolantFits` | src/crypto.rs:475-491 | the interpolant has no more coefficients than points, passes through every point, and its intercept is what interpolation at zero returns |
| `Lagrange.InterceptRecovered` | src/crypto.rs:474-491 | interpolating at least as many values of `f` as it has coefficients gives `f(0)` |
| `Lagrange.InterceptRecoveredIff` | src/crypto.rs:474-491 | if all other values lie on `f`, the intercept comes out if and only if the remaining value lies on `f` |
| `Threshold.HonestSetCombines` | src/crypto.rs:74-99 | at least `t` honest partials combine to `f(0) * H(msg)`, which verifies against the group key |
| `Threshold.AnyTwoSetsAgree` | src/crypto.rs:309-323 | any two sets of at least `t` shares give one signature, also across polynomials with one intercept |
| `Threshold.OneBadPartialIsDetected` | src/crypto.rs:88-99 | with all other partials honest, verification succeeds if and only if the remaining one is honest |
| `Threshold.BelowThresholdEveryMasterIsPossible` | src/crypto.rs:326-339 | for any `t - 1` shares and any candidate master there is exactly one sharing polynomial that fits |
| `Reshare.SessionOutcome` | src/init.rs:694-720 | the session's shares lie on one polynomial of at most `t` coefficients, whose intercept, the session key, is the interpolation of the dealt shares |
| `Reshare.ResharePreservesMaster` | src/crypto.rs:595-674 | a reshare by at least `t` distinct dealers on one polynomial puts every new share on one polynomial with the same intercept |
| `Reshare.ResharedCommitteeDerivesTheSameKey` | src/crypto.rs:677-762 | any `t` members of the reshared committee derive what the old committee derived |
| `Reshare.GuardDetectsAStaleDealer` | src/init.rs:722-730 | with one possibly stale dealer, the session key is the master if and only if that dealer's share is on the common polynomial |
| `Reshare.OldShareIsUselessAfterRefresh` | src/crypto.rs:765-805 | a share from before a refresh combines to a verifying signature if and only if the refresh left its value unchanged |
| `Lifecycle.StepKeepsInv` | src/init.rs:378-420 | every step of every node keeps: a held or sealed share is the outcome of one finished session, with that session's key |
| `Lifecycle.DealingStepKeepsKey` | src/init.rs:722-741 | a dealer task never changes the node's key: what it stores is the key it was checked against, even after other tasks ran in between |
| `Lifecycle.SessionsGrow` | src/dkg.rs:118-202 | contributions are only added, and a finished session never changes |
| `Master.RunKeepsInv` | src/init.rs:831-935 | the invariant holds in every state of every run |
| `Master.KeyNeverChanges` | src/init.rs:618-636 | within one process lifetime a known group key never changes, over every interleaving of sessions anywhere in the cluster |
| `Master.HeldShareHasItsKey` | src/init.rs:378-420 | in every reachable state a node with a share knows the key of the session the share is from |
| `Master.DealtSharesAreOlder` | src/init.rs:674-682 | in every reachable state a dealt share comes from a finished session on an earlier epoch, so no session is dealt from itself, directly or through others |
| `Master.ReshareHasAQuorum` | src/init.rs:560-576 | every reshare of a run has at least `t` dealers and, with the recovering node, more than half of the committee |
| `Master.AdoptedShareKeepsTheMaster` | src/init.rs:722-741 | the share held later in the lifetime is from a session whose sharing polynomial has the key known earlier as intercept, and every share of that session held or sealed anywhere lies on that polynomial, even if sessions overlapped or dealers mixed epochs |
| `Master.NoShareIsEverAssigned` | src/grpc.rs:277-337 | records that nothing reachable writes the pending shards (their only writer, `init_start_node` at src/init.rs:35, has no caller), so the assignment branch is dead |
| `Master.HeldSharesGiveTheKey` | src/crypto.rs:569-592 | in every reachable state any `t` nodes holding shares of one session interpolate to the key each of them knows |
| `Master.SessionKeyInterpolatesDealtShares` | src/init.rs:694-720 | a finished reshare's key is the interpolation of the shares its dealers really brought, mixed or not |
| `Master.OneOriginPreservesKey` | src/init.rs:238-247 | a reshare whose dealers bring shares of one session has that session's key |
| `Master.CleanRunHasOneMaster` | src/init.rs:618-636 | if keyless nodes recover from dealers of one session and genesis has one outcome, every key, sealed record and dealt share in the cluster belongs to one master, across crashes and reloads |
| `MasterFork.RecoveryAtThresholdOne` | src/init.rs:606-626 | at threshold 1 every recovery, whatever its dealers mix, has the master as its key |
| `MasterFork.NoRecoveryAtThresholdN` | src/init.rs:560-567 | at threshold `n` no recovery passes the gates |
| `MasterFork.ExtremeThresholdsNeverFork` | src/init.rs:618-636 | at these two thresholds every run with one genesis outcome has one master |
| `ForkRun.ForkingRun` | src/init.rs:549-636 | for every `2 <= t < n` a run with one genesis outcome, recoveries asked for on true views through the gates, and reloads that pass the freshness test, ends in a state that no key is the one master of |
| `ForkRun.OneMasterExactlyWhen` | src/init.rs:618-636 | a cluster with one genesis outcome has one master in every run, and likewise in every such faithful run, if and only if `t == 1` or `t == n` |
| `Master.ContributorWasShareless` | src/init.rs:847-887 | whoever contributed to a genesis session joined it at a moment when it held neither share nor key |
| `Master.GenesisNeedsAShareLessCommittee` | src/init.rs:510-544 | genesis finishes at a node only if every committee member joined that session without a share |
| `Master.GenesisProbesFoundNoShare` | src/grpc.rs:126-148 | in every run, in the attempt in which a node joins genesis no seed that answered its probe held a share |
| `Formation.JoinCluster` | src/init.rs:94-129 | the probe answers "no seed reachable" if and only if no exchange shows that a cluster may exist, and "joined" exactly when some seed admits the caller, has shards to hand out and answers verifiably, at the first such seed |
| `Formation.FormationTurn` | src/init.rs:867-887 | genesis starts exactly when all members are discovered and no seed showed a cluster; never if a share-holding seed answered |
| `Membership.LeadingDealersLead` | src/init.rs:234-247 | the dealers are exactly the live holders on the highest epoch among live holders |
| `Membership.AssembleParticipants` | src/init.rs:254-312 | the committee holds exactly the other usable members in list order; the flag says that none is missing; the two refusals exactly when they occur |
| `Membership.AssembledIsExact` | src/init.rs:278-303 | a peer is assembled if and only if it is another list member with a known key whose entry was last seen at most 90 seconds ago, and it is assembled as its entry has it |
| `Membership.ResolvePeers` | src/init.rs:317-345 | resolution yields the request's other ids in order, each with the URL, key and epoch of its table entry, succeeds if and only if each is on the list and discovered, and names a missing one otherwise |
| `Membership.DealersAgreeOnParticipants` | src/init.rs:694-701 | every dealer of one request, recovery or refresh, computes the same participant set |
| `Membership.RecoveryParticipantsAgree` | src/init.rs:584-615 | the recovering node's participant set is every dealer's, the ids it sends are in order, and each dealer has one place among them |
| `Membership.CountLeadingHolders` | src/metrics.rs:422-434 | the loops count exactly the live holders on the leading epoch, the node itself included when it leads |
| `Membership.AlertLineEqualsGates` | src/metrics.rs:420-454 | both recovery gates pass if and only if the leading holders reach `max(t, n / 2)` |
| `Epochs.SessionsIntersect` | src/init.rs:347-351 | any two sessions of any run share a participant, for every committee and threshold |
| `Epochs.EvenCommitteeSharesADealer` | src/init.rs:560-576 | in every run of an even committee, every earlier session has a participant among a recovery's dealers |
| `Epochs.SharedHolderForcesGrowth` | src/init.rs:578-581 | in every run, a participant of any kind that comes with a share makes the session's epoch larger than that of the session its share is from |
| `Epochs.TargetIsOneAbove` | src/init.rs:578-581 | if what the initiator has heard of is a completed epoch, the epoch of its session is exactly one above a completed epoch, and above its own and the heard one |
| `Epochs.EpochsNeverRunAhead` | src/server.rs:127-142 | no epoch inflation: in every such run session `k` completes an epoch of at most `k + 1` |
| `Epochs.SessionCompletesNext` | src/init.rs:578-581 | a session completes `e + 1` when `e` is the highest epoch its initiator holds or has heard of |
| `Epochs.RefreshCompletesNext` | src/init.rs:747-821 | on true views a refresh runs only when the whole committee holds shares on one epoch `e`, and completes `e + 1` |
| `Epochs.InformedReloadIsNotBehind` | src/init.rs:471-488 | a restart that passes the freshness test knowing all shares held is behind none of them |
| `Epochs.ReloadFollowsACrash` | src/init.rs:427-506 | in every run a node restarts on a stored share only after a crash |
| `Epochs.LinkedSessionsGrow` | src/init.rs:674-682 | for every committee and threshold, epochs grow strictly in every run whose sessions each contain a holder of the session before |
| `Epochs.LatestReloadsLinkSessions` | src/init.rs:560-581 | with `2 * max(t, n / 2) >= n` and restarts on the last share stored, every session contains such a holder |
| `Epochs.OneSessionPerEpoch` | src/init.rs:578-581 | where epochs grow, shares on one epoch come from one session |
| `EpochReuse.SplitRunReusesAnEpoch` | src/init.rs:347-351 | if `2 * max(t, n / 2) < n`, a run with true views completes two sessions on one epoch |
| `EpochReuse.EpochsAreUniqueExactlyWhen` | src/init.rs:347-351 | with restarts on the last share stored, epochs are unique over all runs if and only if `2 * max(t, n / 2) >= n` |
| `EpochReuse.StaleRestartsReuseAnEpoch` | src/init.rs:427-506 | for every `n >= 2` and every threshold, a run with true views and informed freshness tests in which restarts on an older share reuse an epoch |
| `EpochReuse.StaleRestartsAreSafeExactlyWhen` | src/init.rs:427-506 | with restarts on any share ever stored, epochs are unique over all runs if and only if `n == 1` |
| `PeerTable.RelaysInFull` | src/grpc.rs:721-762 | relaying forgets no one, adds exactly the peers named, takes the largest epoch heard, and never touches liveness |
| `PeerTable.LatestRowWins` | src/grpc.rs:728-750 | the last row relayed for a peer settles its URL and, if not empty, its public key and group key |
| `PeerTable.LatestKeysWin` | src/grpc.rs:734-750 | the public and the group key of an entry are the last ones relayed that are not empty, else the ones known before: a row without a key never erases one |
| `PeerTable.OnlySuchRowsAreIgnored` | src/grpc.rs:722-733 | rows about ourselves, without a URL or with an address that does not decode are passed over, and no others |
| `PeerTable.UnnamedEntryIsUntouched` | src/grpc.rs:721-762 | an entry that no row names is left exactly as it was |
| `PeerTable.Peers.HandlePush` | src/grpc.rs:151-201 | after a push with a URL the caller's entry has the pushed URL, epoch and group key, the signature's public key and the time of the push, whatever it had before; every other entry is unchanged; a push without a URL changes nothing; the reply lists exactly the entries of the table |
| `PeerTable.Peers.MarkSeen` | src/grpc.rs:711-718 | exactly the entries recorded under the pushed URL are marked seen |
| `PeerTable.Peers.AbsorbReply` | src/grpc.rs:703-763 | the loop over relayed rows refines marking followed by merging row by row |
| `PeerTable.Peers.KnownEpoch` | src/server.rs:131-142 | the result is the least bound of the own epoch and all entries' epochs, and one of them |
| `Gossip.RunKeepsInv` | src/grpc.rs:656-780 | in every run every entry states the peer's true URL and key, an epoch it really held, and a last contact that happened |
| `Gossip.EntryEpochWasHeld` | src/grpc.rs:740-743 | every epoch in every table is one that peer held in some state of the run |
| `Gossip.KnownEpochWasHeld` | src/server.rs:127-142 | in every run the highest epoch a node knows was really held by some node; with `Epochs.EpochsNeverRunAhead`, targets do not inflate |
| `Gossip.EpochIsLargestTold` | src/grpc.rs:168-177 | in every run a table's epoch is the largest of the peer's last direct push and what was relayed since |
| `Gossip.PushInforms` | src/grpc.rs:160-177 | in every run handling a push leaves the caller's entry with its URL, its public key, the time, and an epoch and group key that the caller had together |
| `Gossip.RelayInforms` | src/grpc.rs:703-763 | in every run, after absorbing a reply a node is behind the table it lists on no peer with another URL |
| `Gossip.LiveEntryWasSeen` | src/server.rs:49-54 | an entry judged live had its signer push to us, or a push to its recorded URL answered, within 90 seconds |
| `Gossip.LiveExactlyWhenSeen` | src/server.rs:49-54 | in every run an entry is judged live if and only if, since the last restart, a push of that peer was handled or a push to its recorded URL answered at most 90 seconds ago |
| `Gossip.AssembledExactlyWhenSeen` | src/init.rs:278-303 | in every run another list member with a public key is assembled if and only if it was seen so |
| `Gossip.ContactKeepsAlive` | src/grpc.rs:160-177 | over runs: from the step in which a node sees a peer, the peer is judged live in every state of the next 90 seconds, unless the node restarts |
| `Gossip.SharedUrlHidesSilence` | src/grpc.rs:711-718 | for any two nodes at one URL there is a run in which the silent one is judged live |
| `Gossip.LivenessIsDirectExactlyWhen` | src/grpc.rs:710-766 | liveness means contact with that very node in every run, if and only if URLs are unique |
| `Gossip.UniqueUrlsMakeSeeingDirect` | src/grpc.rs:710-718 | with unique URLs everything a node has seen of a peer was contact with that very peer, so together with `Gossip.LiveExactlyWhenSeen` live means recent contact and the other way round |
| `Gossip.SessionPeersWereInContact` | src/init.rs:278-303 | with unique URLs every peer put into a session was in contact within 90 seconds and is described truly |
| `SessionBarrier.Buffer.Record` | src/server.rs:80-86 | the message is stored under its round and sender, in place of an earlier one of that sender for that round, and no other round or sender changes |
| `SessionBarrier.Buffer.Poll` | src/dkg.rs:65-76 | the barrier opens if and only if the round exists and holds every expected sender, and then returns the round |
| `SessionBarrier.RunKeepsInv` | src/dkg.rs:118-202 | every message is said, in flight, buffered or already read, and what was read is what was said, in every run |
| `SessionBarrier.RunSkew` | src/dkg.rs:118-188 | any two participants differ by at most one broadcast round |
| `SessionBarrier.FinishedNodeMissesNothing` | src/dkg.rs:198-199 | when a participant drops its buffer it has read all four rounds of everyone and nothing is still on its way to it |
| `SessionBarrier.FinishedNodesAgree` | src/dkg.rs:150-188 | two finished participants read the same full map, own message included, for each of the four rounds |
| `SessionBarrier.NeverDeadlocks` | src/dkg.rs:49-85 | with reliable delivery a session of two or more that is unfinished somewhere has an enabled step |
| `SessionBarrier.LoneParticipantNeverFinishes` | src/dkg.rs:69-76 | a single participant waits for a round that no one ever fills |
| `SessionBarrier.RunsAreBounded` | src/dkg.rs:118-202 | every run has at most `5 * n * n` steps |
| `SessionBarrier.StuckRunsAreFinished` | src/dkg.rs:118-202 | a run that cannot go on has finished at every participant |
| `Collector.Absorb` | src/grpc.rs:573-600 | one reply changes the three maps as stated, and readiness is raised exactly when its bucket reaches the threshold |
| `Collector.ReplyKeepsInStep` | src/grpc.rs:575-600 | buckets, contributors and seen sets stay in step: one partial for each first well-formed reply of an index, none repeated |
| `Collector.Gather` | src/grpc.rs:538-613 | the loop ends ready if and only if some epoch has enough serving indices, and then holds exactly `max(1, t)` partials of one epoch |
| `Collector.CollectAndDprf` | src/grpc.rs:503-634 | for any order and content of replies: refused for lack of partials exactly when no epoch has enough; on the ready epoch's partials a combination error exactly when there are fewer than two or an id is zero or repeated, no group key exactly when then none is known, a verification error exactly when then their interpolation is not the group key times the hashed message, and otherwise the derivation of that product with the sorted trace of exactly the servers combined; never a key at a threshold of one |
| `Collector.IssuedKeyIsTrue` | src/grpc.rs:615-634 | whatever was gathered, an issued key is the derivation of the master times the hashed message |
| `Collector.ForgedPartialIsRefused` | src/grpc.rs:615-626 | with all other partials honest for a sharing of the group key, one forged partial makes the outcome the verification error |
| `Collector.CoordinatorsAgree` | src/grpc.rs:503-634 | two coordinators that both succeed for one message under one group key hand out the same key, with whatever shares, thresholds, replies, epochs and servers |
| `Derivation.DeriveFromHeldShares` | src/grpc.rs:503-634 | over every run of the cluster, if everyone who answers does so from a share of the coordinator's session held at the moment of answering, and `t` of them answer, the derivation succeeds, with the key that the coordinator's group key stands for, if and only if `t >= 2` |
| `Collector.HonestEpochIssues` | src/grpc.rs:538-634 | if everyone who counts for the ready epoch answers for its share, the key is issued |
| `Messages.DprfMessageIsInjective` | src/crypto.rs:48-57 | the derivation message determines the application id and the material |
| `Messages.DprfMessageReads` | src/crypto.rs:48-57 | the derivation message read back: tag, length of the id, id, length of the material, material, at stated offsets |
| `Messages.PartialResponseIsInjective` | src/crypto.rs:260-269 | a partial's signed message determines caller, index, epoch and ciphertext |
| `Messages.PartialMessageReads` | src/crypto.rs:260-269 | a partial's signed message read back: prefix, method, caller, index, epoch, ciphertext |
| `Messages.ShardResponseIsInjective` | src/crypto.rs:273-280 | a shard's signed message determines method, caller, index and ciphertext |
| `Messages.ShardMessageReads` | src/crypto.rs:273-280 | a shard's signed message read back: prefix, method, caller, index, ciphertext |
| `Messages.ShardIsNotAPartial` | src/crypto.rs:260-280 | no shard response message equals a partial response message |
| `Messages.RequestIsInjective` | src/crypto.rs:230-232 | a request's signed message determines method and timestamp |
| `Messages.RequestMessageReads` | src/crypto.rs:230-232 | a request's signed message read back: prefix, method, the timestamp in decimal |
| `Messages.RequestIsNotAResponse` | src/crypto.rs:230-257 | no request message equals a response message |
| `VerdictCache.Verifier.RequireVerified` | src/verifier.rs:280-410 | with any other requests completing at every wait, and a commit as soon as asking stops: an admission rests on the last verdict being positive and received under a day ago; with restamps in order a fetched answer admits exactly then, and nobody is asked where the reference decides, before or after the wait for the lock; at most `1 + wait / poll` calls (five, or one without waiting or with a usable positive) |
| `VerdictCache.Verifier.Resolve` | src/verifier.rs:303-406 | under the lock, whichever answer is the last is committed with the time it came in, and admits as stated |
| `VerdictCache.Verifier.Ask` | src/verifier.rs:303-314 | asking stops exactly at a verdict, at the deadline, or at once when a usable positive is at hand |
| `VerdictCache.Verifier.KeepAsking` | src/verifier.rs:306-313 | the wait loop ends by its clock, after at most `1 + wait / poll` calls, none but the last a verdict |
| `VerdictCache.Verifier.Consult` | src/verifier.rs:413-428 | the cache alone admits only on a standing confirmation, and with restamps in order decides as the never-evicting reference does |
| `VerdictCache.Verifier.CommitAnswer` | src/verifier.rs:315-406 | a stored answer admits only if it confirms the signer or a confirmation stands; with restamps in order exactly then, and as the reference does |
| `VerdictCache.EvictionIsInvisible` | src/verifier.rs:316-321 | on every history in which no restamp is older than the confirmation it keeps, the gate answers as one that never evicts |
| `VerdictCache.EvictionIsInvisibleExactlyWhen` | src/verifier.rs:316-340 | until the next commit for a key, the gate goes on to answer on it as the reference does, whatever happens on other keys, if and only if the entry is not a living positive restamped to before its confirmation |
| `VerdictCache.OverlapBackdates` | src/verifier.rs:334-340 | two overlapping fetches leave such an entry, so eviction can show |
| `VerdictCache.UsableIffFresh` | src/verifier.rs:432-437 | on every history, overlapping or not, the reference may serve a stored positive if and only if the last verdict is positive and was received under a day ago |
| `VerdictCache.AdmissionIsFresh` | src/verifier.rs:413-437 | on every history, overlapping or not, an admission is a positive verdict or rests on the last verdict committed being positive and received less than 24 hours ago |
| `VerdictCache.LookupExactly` | src/verifier.rs:413-428 | with restamps in order a cached decision repeats the last fetched one: an admission for an hour while its confirmation stands, a refusal for 30 seconds or, if the verifier had not caught up, 3 seconds; otherwise nothing |
| `VerdictCache.RefusalsSayWhy` | src/verifier.rs:355-428 | with restamps in order a fetched refusal has the text of its own answer, and a cached one the text for the last answer committed |
| `VerdictCache.CommitLeavesOthers` | src/verifier.rs:316-321 | a commit leaves every other key's entry alone, except that beyond 4096 entries those not stamped for a day are dropped |
| `VerdictCache.AdmissionExactly` | src/verifier.rs:344-406 | with restamps in order, the exact condition under which a fetched answer admits |
| `VerdictCache.FreshIsByReceipt` | src/verifier.rs:334-346 | without overlap no negative verdict was received after the positive one an admission rests on |
| `VerdictCache.LatePositiveHidesANegative` | src/verifier.rs:334-346 | with overlap it can be: a history in which the gate admits although a negative verdict was received last |
| `FetchLocks.SettledRunsAreSingleFlight` | src/verifier.rs:293-301 | in every run in which no stored decision lapses while someone is about to drop the map's entry or is at a dropped lock, no two requests for the key fetch at once and answers are committed in the order received |
| `FetchLocks.StandingDecisionIsServed` | src/verifier.rs:286-301 | while a stored decision stands nobody joins the requests and nobody starts to fetch |
| `FetchLocks.LapseIsSafeExactlyWhen` | src/verifier.rs:407-408 | when a decision lapses, fetches stay single on every continuation up to the next stored answer if and only if nobody is about to drop the entry and nobody is at a dropped lock |
| `FetchLocks.LateWaiterFetchesAlongside` | src/verifier.rs:293-301 | a run, tied to the gate's own damping times at every state, with two fetches at once: a late waiter on the dropped lock and a newcomer on a new one |
| `FetchLocks.LateDropFetchesAlongside` | src/verifier.rs:406-408 | the same when the decision lapses between storing the answer and dropping the entry |
| `FetchLocks.SettledGateIsFreshByReceipt` | src/verifier.rs:280-410 | gate and locks together: in every settled run an admission is a positive verdict or rests on one received less than a day ago with no negative one received after it |
| `FetchLocks.DoubleFetchHidesANegative` | src/verifier.rs:334-408 | a run of the locks, tied to the gate at every state, after which the gate admits although a negative verdict was received last |
| `NodeListCache.NodeList.GetSignerAddresses` | src/chain.rs:124-172 | with other tasks running at every wait: a warm list is served as it is, otherwise the reply, else the list cached by then, else a failure; the result is always a chain answer for that key |
| `NodeListCache.NodeList.GetSignerAddressesFor` | src/chain.rs:185-230 | with other tasks running at every wait: it fails only if there is no list; a list that names the signer, first or under the miss lock, is returned without asking again; under the lock the chain is asked again exactly when the list lacks the signer and neither its fetch nor its last attempt is under 5 seconds old; then the reply is returned and stored, or the first list and the attempt marked; otherwise the list under the lock is returned |
| `NodeListCache.StepKeepsInv` | src/chain.rs:124-230 | every step of every interleaving keeps lists equal to chain answers and attempts remembered by the entry |
| `NodeListCache.ForcedRefreshesAreSpaced` | src/chain.rs:201-230 | forced refreshes of one key never overlap and each starts at least 5 seconds after the previous ended, also when fetches fail or a refresh by age wipes the marker |
| `NodeListCache.AttemptExactlyWhenMissing` | src/chain.rs:201-214 | in every run a caller at the miss lock starts an attempt exactly when the cached list lacks its signer and both times are at least 5 seconds old, and is otherwise given the cached list |
| `NodeListCache.AttemptEnds` | src/chain.rs:215-230 | in every run a finished attempt hands out the reply, or the list its caller had, marks the entry, and touches list and fetch time only on a reply |
| `NodeListCache.ReturnedListsAreChainAnswers` | src/chain.rs:124-230 | every list handed out for a key is one the chain returned for that key |
| `NodeListCache.HitIsYoung` | src/chain.rs:131-136 | a list served without asking is a chain answer less than 30 seconds old |

## Left out

- The key-generation, pairing, encryption and key-derivation libraries: they enter as algebra or as parameters, with the laws named above; that combination refuses fewer than two partials, repeated ids and the id zero is taken as a property of the pairing library.
- Genesis retries under one session id with leftover buffers: a session of `Lifecycle` is one attempt on whose contributions its participants agree.
- Message loss and round timeouts in the session driver: `SessionBarrier` assumes that each message arrives once; giving up a session is a step of `Lifecycle` instead.
- Sessions that overlap or commit at only some participants are excluded from `Epochs` and allowed in `Lifecycle`; concurrent rejoins are the gap the repository's own README accepts at line 277.
- The two reads of the own share in `run_reshare_dealer` (epoch test, then share) are one step in `Lifecycle`.
- A list longer than the configured committee size: ids and thresholds assume that both agree.
- The freshness test of a reload and the choice of dealers in `Lifecycle`: a reload there takes any record ever sealed, and a proposal any well-formed dealer set, which includes all that the tests let through; `MasterFork.Faithful` and `Epochs` model both.
- Intermediate answers of the wait loop in `FetchLocks`: a fetch there ends with its last answer, the only one that is stored.
- That a group key relayed by gossip belongs to the epoch beside it: a row without a key keeps the earlier one; relayed keys only feed an alarm.
- Wall-clock scheduling: sleeps, stagger and the settle window are nondeterministic steps, and the fall-behind watchdog appears only as a recovery that a share-holding node may start.
- Sealing, configuration, TLS pinning, HTTP and gRPC plumbing, contract bindings, metrics rendering, logging and deployment: input and output without a deep invariant.
