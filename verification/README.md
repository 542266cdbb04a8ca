# Verified model of the keep client

The repository is a client of threshold-ECDSA keeps: operators announce themselves, generate a key
together, sign for tBTC deposits, and recover the Bitcoin of a deposit whose keep was terminated. An
off-chain calculator distributes rewards to the operators. This project models the parts whose
correctness is decided by the code itself and proves what they promise.

What each file models:

- `GroupProtocol.dfy`, `Barrier.dfy`, `SessionProgress.dfy`: the announce and ready protocols as a
  distributed system, with agreement on the group, the barrier before key generation and signing, and
  progress through both.
- `StringOrder.dfy`, `RecoveryBroadcast.dfy`, `RecoveryAgreement.dfy`, `RecoverySplit.dfy`,
  `RecoveryTransaction.dfy`: the recovery round, agreement of its result and what it needs, the fee rule
  and the unsigned Bitcoin transaction.
- `LittleEndian.dfy`, `LocalChain.dfy`, `RedemptionFee.dfy`: the deposits of the local chain and the
  client's redemption fee bumps run against them through the byte codec.
- `Monitoring.dfy`, `DepositFilter.dfy`, `TimeCache.dfy`: deposit monitoring, its locks and its caches.
- `Firewall.dfy`, `FirewallProperties.dfy`, `FirewallPolicy.dfy`, `FirewallMemory.dfy`: the firewall
  policy behind its caches.
- `EventTracking.dfy`, `Handlers.dfy`, `Registry.dfy`, `Loader.dfy`: event deduplication, the concurrent
  event handlers, the signer registry in memory and on disk, and the loading goroutines.
- `KeyGeneration.dfy`: one-shot pre-parameters, generation retries and public key resubmission.
- `DerivationIndex.dfy`: the file-backed counter of wallet addresses.
- `EventPulls.dfy`, `KeepCache.dfy`, `FixedPoint.dfy`, `Rewards.dfy`: batched event pulls, the keep
  cache under chain reorganisations, and the rewards arithmetic.

A protocol is a state machine whose steps are the sections the source runs under one mutex, the
deliveries of the network or of a channel, and the failures; a property of it is proved for every
state of every run. Code that changes objects in place is a class, each method proved equal to a
function of the old state. Calls to the chain, the network, the Bitcoin library, the clock and the
file system are parameters: what they answer, and whether they fail, is arbitrary unless a lemma's
`requires` says otherwise. `dafny verify dfyconfig.toml` checks everything.

## Where the code and its promises differ

In each case the model follows the code; a lemma gives the exact condition, an example, or both.

- Fee bumps: a view of the events that holds a single later event gives numbers the chain accepts only
  by coincidence (`BumpAcceptedExactly`), and a failing block counter loses an event for good
  (`LostEventBlocksTheClient`).
- The documented five percent rule for the recovery fee is not always followed: only where the limit
  would lower the fee, and then for some estimates of 2^31 and more and for some fees on deposits of
  2^31 satoshi and more (`FeeRuleExactly`, and by ranges `FeeRuleInRanges`).
- A recovery fee above the deposit's value is not refused: the division truncates toward zero and the
  outputs can overdraw the input (`ValueIsConserved`).
- A refusal is remembered for a period, also one that only a failing chain call during the firewall's
  scan has caused, unless the search for another peer brings the refused one in (`RefusalIsRemembered`,
  `FailureIsRemembered`, `OtherPeerRescues`).
- "Already handled" events can be handled again when a handler is overtaken between its look at the
  registry or the chain and its addition to the track (`LateStartExactly`, `HandledTwice`).
- Key generation does not stop at its deadline while the keep's activity cannot be read
  (`DeadlineEndsGenerationExactly`). The public key is resubmitted at most twice; the comment's "only
  three times" holds if it counts the first submission (`AtMostTwoResubmissions`).
- Received recovery fees are not checked: the agreed rate is positive exactly when all the rates sent
  are (`AgreedFeeWithinEveryLimit`).
- Old derivation indexes are removed before the new one is written, so a failed write can reset the
  counter (`CounterMovesBackExactly`, `FailedWriteReusesIndexes`).
- A keep that is mined again in another block keeps its old creation block in the cache
  (`CreationBlockExactly`), and a refresh that finds no event fails (`QuietRefreshFailsExactly`,
  `QuietOnlyAfterReorganisation`).
- Rewards rounded half up can add up to more than the interval's rewards (`RoundingOvershoots`); they
  fit under the conditions of `RewardsFit` and `RewardsFitExactly`.

## Model

| member | source | states |
|---|---|---|
| `GroupProtocol.AnnounceReceiver.Receive` | pkg/ecdsa/tss/protocol_announce.go:53-85 | One announcement is filed under the lower-cased operator of its sender; the round is complete exactly when the map is as large as the keep. |
| `GroupProtocol.AnnouncedExactly` | pkg/ecdsa/tss/protocol_announce.go:45-51 | A keep member is found announced exactly when a key of it was received, whatever the letter case of its identifier; the last such key is kept. |
| `GroupProtocol.ReadyReceiver.Receive` | pkg/ecdsa/tss/protocol_ready.go:49-80 | A ready signal is recorded under the address of a group member; signals of others, and of members without an address, change nothing. |
| `GroupProtocol.ReadyExactly` | pkg/ecdsa/tss/protocol_ready.go:49-73 | An address is ready exactly when a signal of a group member with this address was received. |
| `Barrier.StepKeepsAnnouncements` | pkg/ecdsa/tss/protocol_announce.go:43-85 | Every step of the session keeps the announcement maps truthful: each entry is a key of a keep member, filed under that member. |
| `Barrier.StepKeepsReadiness` | pkg/ecdsa/tss/protocol_ready.go:44-108 | Every step keeps the ready maps truthful: each address was signalled by a group member, and only connected members signal. |
| `Barrier.CompleteAnnouncement` | pkg/ecdsa/tss/protocol_announce.go:79-82 | A map as large as the keep has exactly the lower-cased members of the keep as keys. |
| `Barrier.AnnouncementAgreement` | pkg/ecdsa/tss/protocol_announce.go:43-142 | In every run, for every delivery order, duplication and stray message, any two members that get through hold the same keys, exactly one for each keep member. |
| `Barrier.FullMapMeansAllSignalled` | pkg/ecdsa/tss/protocol_ready.go:75-79 | A ready map as large as the group means every group member has signalled. |
| `Barrier.ReadyMapIsFullExactly` | pkg/ecdsa/tss/protocol_ready.go:75-79 | In a group with one address each, the map is as large as the group exactly when the signal of every member came in. |
| `SessionProgress.AnnouncementCanFinish` | pkg/ecdsa/tss/protocol_announce.go:53-85 | No member is stuck in the announcement: from any state of a session in which every keep member has announced, receiving the missing announcements gets it through. |
| `SessionProgress.MemberCanStart` | pkg/ecdsa/tss/protocol_ready.go:44-108 | Nor before the barrier: once all the group members have signalled, receiving their signals makes a connected member start. |
| `Barrier.BarrierHolds` | pkg/ecdsa/tss/tss.go:90-122 | In every run of key generation or signing nobody starts before every group member that runs the client has connected its handlers. |
| `Barrier.BarrierCoversTheKeep` | pkg/ecdsa/tss/tss.go:90-122 | In key generation a started member has waited for every operator of the keep. |
| `StringOrder.SortStrings` | pkg/ecdsa/tss/protocol_recovery.go:193 | The addresses sorted in byte order: sorted, and a permutation of the input. |
| `StringOrder.SortedListsOfSameElements` | pkg/ecdsa/tss/protocol_recovery.go:193 | Two sorted lists of the same elements are equal, so sorting hides the order of collection. |
| `RecoveryBroadcast.RecoveryReceiver.Receive` | pkg/ecdsa/tss/protocol_recovery.go:79-113 | A pair is stored under the address of a group member; complete exactly when the map is as large as the group. |
| `RecoveryBroadcast.CollectedExactly` | pkg/ecdsa/tss/protocol_recovery.go:79-108 | An address is collected exactly when a group member that has it sent a pair. |
| `RecoveryBroadcast.LastPairIsKept` | pkg/ecdsa/tss/protocol_recovery.go:94 | Of several pairs received for one address the last is kept. |
| `RecoveryBroadcast.RecoveryReceiver.Retrieve` | pkg/ecdsa/tss/protocol_recovery.go:174-195 | The final loop returns the sorted addresses and the lowest fee, or the first invalid address in iteration order. |
| `RecoveryBroadcast.Lowest` | pkg/ecdsa/tss/protocol_recovery.go:175-190 | The fee is a lower bound of all collected fees and one of them, or the largest 32-bit integer when there are none. |
| `RecoveryBroadcast.ConcludeIgnoresOrder` | pkg/ecdsa/tss/protocol_recovery.go:177-195 | The verdict on two permutations of the same pairs is the same. |
| `RecoveryAgreement.StepKeepsInvariant` | pkg/ecdsa/tss/protocol_recovery.go:72-115 | Every step keeps each collected pair traceable to a group member, and a finished verdict to one iteration of a full map. |
| `RecoveryAgreement.FullMapHoldsAll` | pkg/ecdsa/tss/protocol_recovery.go:110-112 | A map as large as the group holds the pair of every member under its own address; in particular no two members share one. |
| `RecoveryAgreement.MembersAgree` | pkg/ecdsa/tss/protocol_recovery.go:37-199 | Agreement: two members of one group that complete the round both fail or return the same address list and the same fee, in every run. |
| `RecoveryAgreement.VerdictSpeaksForTheGroup` | pkg/ecdsa/tss/protocol_recovery.go:174-195 | A completed round fails exactly when some member sent an invalid address; otherwise it lists every member's address, sorted, and the lowest fee of the group. |
| `RecoveryAgreement.AgreementAfterAnnouncement` | pkg/client/liquidation_recovery.go:53-125 | The announcement and the recovery round in sequence: members that announced and completed agree, on one address for each keep member. |
| `RecoveryTransaction.ResolveVbyteFee` | pkg/client/liquidation_recovery.go:200-252 | The fee a member broadcasts, with 32-bit wrap-around; positive exactly when the fetched fee is positive, or is zero and the configured one is not negative. |
| `RecoveryTransaction.FeeRuleExactly` | pkg/client/liquidation_recovery.go:188-242 | For every suggested and configured fee and every deposit: the code follows its documented five percent rule exactly when the limit would not have lowered the fee, or the wrapped comparison comes out like the documented one. |
| `RecoveryTransaction.FeeRuleInRanges` | pkg/client/liquidation_recovery.go:109-111 | The same condition in ranges of the estimate and the deposit: which low 32 bits of an estimate of 2^31 and more, and which estimates for a deposit of 2^31 satoshi and more, still compare as documented. |
| `RecoveryTransaction.LargeDepositLowersTheFee` | pkg/client/liquidation_recovery.go:109-111 | An instance of the ranges: a deposit of 21.5 BTC is read as a negative number, so a fee far below five percent is cut. |
| `RecoveryTransaction.HugeFeeEscapesTheLimit` | pkg/client/liquidation_recovery.go:218-230 | An instance of the ranges: a suggested fee whose estimate wraps to a negative number is not limited. |
| `RecoveryTransaction.ConstructUnsignedTransaction` | pkg/extensions/tbtc/recovery/recovery.go:69-153 | Fails exactly when the hash or some address cannot be decoded. Otherwise it spends the given outpoint with sequence 0, the i-th script is that of recipient i, all outputs have one value, and with the fee of the rate they use up the input to less than one satoshi per recipient. |
| `RecoveryTransaction.UnsignedTransactionSplitsFairly` | pkg/extensions/tbtc/recovery/recovery.go:134-142 | The same for the transaction as a function of its inputs: the fee is taken from the input before the rest is divided. |
| `RecoveryTransaction.AddOutputs` | pkg/extensions/tbtc/recovery/recovery.go:110-132 | The first loop: one output of no value per recipient, or the first address that cannot be decoded. |
| `RecoveryTransaction.FillValues` | pkg/extensions/tbtc/recovery/recovery.go:140-142 | The last loop: every output gets the same value and keeps its script. |
| `RecoveryTransaction.ValueIsConserved` | pkg/extensions/tbtc/recovery/recovery.go:134-142 | For every fee: outputs and fee stay within the input exactly when the fee does or the missing amount divides evenly; the loss is less than one satoshi per recipient; outputs are nonnegative exactly while less than that is missing. |
| `RecoveryTransaction.AgreedFeeWithinEveryLimit` | pkg/ecdsa/tss/protocol_recovery.go:174-191 | The agreed fee rate is at most the rate every member sent, and positive exactly when all of them are; rates resolved from nonnegative inputs are. |
| `RecoveryTransaction.MembersBuildOneTransaction` | pkg/extensions/tbtc/recovery/recovery.go:98-142 | Members that complete the round with success build the same unsigned transaction: the agreed addresses share the input less the fee at the agreed rate, which is within everybody's limit and positive exactly when all the rates sent are. |
| `RecoverySplit.TwoPairsSplitTheGroup` | pkg/ecdsa/tss/protocol_recovery.go:79-113 | A run in which one member sends two pairs and the two others complete with different results: agreement needs one pair from each. |
| `LittleEndian.CodecKeepsLow32Bits` | pkg/extensions/tbtc/tbtc.go:1035-1039 | What the chain reads back of an encoded value: the low 32 bits of its absolute value. |
| `LittleEndian.CodecRoundTrip` | pkg/chain/tbtc.go:192-196 | The codec loses nothing exactly on values from 0 to 2^32 - 1. |
| `LocalChain.TBTCLocalChain.CreateDeposit` | pkg/chain/local/tbtc.go:173-199 | A new deposit with a fresh keep in the initial state; nothing else changes. |
| `LocalChain.TBTCLocalChain.FundDeposit` | pkg/chain/local/tbtc.go:241-262 | The deposit gets the fixed output value; every other deposit is unchanged. |
| `LocalChain.TBTCLocalChain.RedeemDeposit` | pkg/chain/local/tbtc.go:264-330 | The state and error of a redemption request on one deposit, including the changes that remain when the keep or the block counter fails. |
| `LocalChain.TBTCLocalChain.RetrieveSignerPubkey` | pkg/chain/local/tbtc.go:425-475 | The public key is copied from the keep once, with each error the call can return. |
| `LocalChain.TBTCLocalChain.ProvideRedemptionSignature` | pkg/chain/local/tbtc.go:477-524 | A signature is accepted once, for a deposit in redemption. |
| `LocalChain.TBTCLocalChain.IncreaseRedemptionFee` | pkg/chain/local/tbtc.go:526-617 | Both value checks of the chain against the previous fee, and every field afterwards: an accepted increase clears the signature and waits for a new one, also when its event is lost. |
| `LocalChain.TBTCLocalChain.ProvideRedemptionProof` | pkg/chain/local/tbtc.go:619-655 | The proof is accepted once and ends the redemption. |
| `LocalChain.TBTCLocalChain.PastDepositRedemptionRequestedEvents` | pkg/chain/local/tbtc.go:391-405 | The events of one deposit, all of them. |
| `RedemptionFee.RedemptionProofAction` | pkg/extensions/tbtc/tbtc.go:455-520 | The client's fee bump against the chain object: exactly the outcome of encoding the values derived from the events it sees, with the confirmation after it; an always failing transaction changes nothing. |
| `RedemptionFee.RedemptionSignatureAction` | pkg/extensions/tbtc/tbtc.go:281-354 | The client's signature action against the chain object: the keep's latest signature is handed over exactly when it is for the latest request, and the confirmation after it can still fail the action. |
| `RedemptionFee.RequestStartsLadder` | pkg/chain/local/tbtc.go:264-330 | A first request on a funded deposit puts it on the fee ladder exactly when it succeeds. |
| `RedemptionFee.StepKeepsLadder` | pkg/chain/local/tbtc.go:545-613 | A call leaves the ladder exactly when it is a fee increase on a signed deposit whose decoded values pass both checks, made while the block number cannot be read. |
| `RedemptionFee.FeeLadder` | pkg/chain/local/tbtc.go:291-325 | Over every run: after a successful request the n-th event carries n times the initial fee, and the deposit has the last event's fee. |
| `RedemptionFee.IncreasesAreSignedBetween` | pkg/chain/local/tbtc.go:545-613 | Over every run of calls, with any failing ones: between two accepted fee increases a signature was provided and accepted. |
| `RedemptionFee.BumpAcceptedExactly` | pkg/extensions/tbtc/tbtc.go:475-507 | For any window of events, a bump passes both checks through the codec exactly when the next fee fits; a window of one later event needs a numeric coincidence. Acceptance leaves the next rung, refusal changes nothing. |
| `RedemptionFee.RoundsClimbToTheLastRung` | pkg/extensions/tbtc/tbtc.go:281-507 | Whole rounds, in which the keep signs, the client provides the signature and bumps the fee, climb one rung each and stop for good at the largest fee the output covers; each accepted bump follows the very signature of its round. |
| `RedemptionFee.DefaultLadder` | pkg/chain/local/tbtc.go:24-60 | With the constants of the local chain the ladder ends at a fee equal to the whole deposit. |
| `RedemptionFee.LostEventBlocksTheClient` | pkg/chain/local/tbtc.go:595-613 | After a bump whose event was lost, no view of the events gives numbers the chain accepts. |
| `RedemptionFee.SignedRequestIsProvided` | pkg/extensions/tbtc/tbtc.go:302-342 | Once the keep has signed the latest request the action leaves that very signature on the deposit, or the one it had, and the deposit stays on the ladder. |
| `RedemptionFee.StaleSignatureIsRefused` | pkg/extensions/tbtc/tbtc.go:322-329 | A signature for another digest never reaches the deposit. |
| `TimeCaches.TimeCache.Add` | pkg/firewall/firewall.go:144-149 | An item keeps the time of its first insertion. The class stands for the TimeCache of keep-common, as the cited lines use it. |
| `TimeCaches.TimeCache.Sweep` | pkg/firewall/firewall.go:170-172 | A sweep drops exactly the items older than the period. |
| `Firewall.StakeOrActiveKeepPolicy.ValidateAuthorization` | pkg/firewall/firewall.go:110-151 | Verdict and caches of the authorisation check. |
| `FirewallMemory.AuthorizationIsKept` | pkg/firewall/firewall.go:110-151 | The chain's answer about an authorisation is given again for the whole period, whatever peers are validated in between and whatever the chain says or fails to say by then. |
| `FirewallMemory.KnownKeepsAreNotAskedAgain` | pkg/firewall/firewall.go:189-377 | After a search through all the keeps, the searches of the next period are answered from memory: a peer is let in exactly if it was in an active keep then, whatever the calls about keeps say or fail to say. |
| `Firewall.StakeOrActiveKeepPolicy.GetKeepAtIndex` | pkg/firewall/firewall.go:254-289 | The index cache in front of the chain. |
| `Firewall.StakeOrActiveKeepPolicy.IsKeepActive` | pkg/firewall/firewall.go:291-338 | The permanent and the timed activity caches in front of the chain. |
| `Firewall.StakeOrActiveKeepPolicy.GetKeepMembers` | pkg/firewall/firewall.go:340-377 | The member cache; a failing call is answered with no members and no error. |
| `Firewall.StakeOrActiveKeepPolicy.ScanKeeps` | pkg/firewall/firewall.go:189-240 | The loop from the last keep down, ending at the first active keep that has the peer among its members. |
| `Firewall.StakeOrActiveKeepPolicy.ValidateActiveKeepMembership` | pkg/firewall/firewall.go:153-249 | Verdict and caches of the membership check, for every combination of failing calls. |
| `Firewall.StakeOrActiveKeepPolicy.Validate` | pkg/firewall/firewall.go:78-108 | Verdict and caches of one validation. |
| `FirewallProperties.ValidateKeepsTruth` | pkg/firewall/firewall.go:78-377 | One validation keeps the index, member and inactive caches equal to the chain, and no keep both active and inactive. |
| `FirewallProperties.CachesEqualTheChain` | pkg/firewall/firewall.go:254-377 | In every reachable state the permanent caches equal the chain. |
| `FirewallProperties.AcceptanceStaleness` | pkg/firewall/firewall.go:170-240 | A peer accepted through membership is authorised and belongs to a keep the chain itself reported active at most two caching periods earlier. |
| `FirewallPolicy.FirstVerdict` | pkg/firewall/firewall.go:78-249 | On empty caches, for any failing calls, a peer is accepted exactly when it has the stake, or is authorised and visible in some active keep. |
| `FirewallPolicy.UncachedPolicy` | pkg/firewall/firewall.go:78-249 | With no failing call and empty caches: the minimum stake, or authorised and a member of some active keep, for any number of keeps. |
| `FirewallPolicy.RefusalIsRemembered` | pkg/firewall/firewall.go:170-249 | From any caches, on any chains, with any failing calls and any peers validated in between: once the search has refused a peer, within the period it is let in exactly with the stake, or when it is authorised and the search for another peer has meanwhile reached an active keep that has it among its members. |
| `FirewallPolicy.RefusalIsRememberedAlone` | pkg/firewall/firewall.go:170-249 | While only the refused peer itself comes back, it is let in exactly with the stake. |
| `FirewallPolicy.RefusalOutlives` | pkg/firewall/firewall.go:170-249 | Within the period the validation of any peer keeps the refusal cached, and makes the refused peer a known member exactly when its search reaches an active keep of it. |
| `FirewallPolicy.FailureIsRemembered` | pkg/firewall/firewall.go:208-249 | When failing calls are to blame: a member of active keeps that all have a failing call is refused though the policy lets it in; within the period only its stake, or the search for another peer, lets it in again. |
| `FirewallPolicy.OneKeepIsForgotten` | pkg/firewall/firewall.go:208-249 | The smallest instance: one keep, its activity unreadable once. |
| `FirewallPolicy.OtherPeerRescues` | pkg/firewall/firewall.go:225-240 | An instance with a second peer: its search lets the refused member of the same keep in again. |
| `FirewallPolicy.RefusalStaleness` | pkg/firewall/firewall.go:110-249 | When no call ever fails, a refused peer was unauthorised, or in no active keep, within one period. |
| `EventTracking.UniqueEventTrack.Add` | pkg/client/event/tracking.go:27-38 | Adds a keep and says whether it was new. |
| `EventTracking.UniqueEventTrack.Has` | pkg/client/event/tracking.go:40-45 | Whether the keep is tracked. |
| `EventTracking.UniqueEventTrack.Remove` | pkg/client/event/tracking.go:47-52 | Removes one keep and no other. |
| `EventTracking.RequestedSignaturesTrack.Add` | pkg/client/event/tracking.go:65-83 | The nested map refines a flat set of keep and digest: adds the pair and says whether it was new. |
| `EventTracking.RequestedSignaturesTrack.Has` | pkg/client/event/tracking.go:85-96 | Whether the pair is in the flat set. |
| `EventTracking.RequestedSignaturesTrack.Remove` | pkg/client/event/tracking.go:98-110 | Removes the pair and never leaves an empty inner map. |
| `EventTracking.Deduplicator.NotifyKeyGenStarted` | pkg/client/event/deduplicator.go:79-92 | Undisturbed, proceeds exactly for a keep that is neither tracked nor registered, and tracks it. |
| `EventTracking.Deduplicator.NotifySigningStarted` | pkg/client/event/deduplicator.go:114-147 | Undisturbed, proceeds exactly for an untracked pair the chain confirms; fails exactly when the chain had to be asked and could not. |
| `EventTracking.Deduplicator.NotifySigningCompleted` | pkg/client/event/deduplicator.go:152-157 | The pair is no longer tracked; the others are. |
| `EventTracking.Deduplicator.NotifyClosingStarted` | pkg/client/event/deduplicator.go:166-180 | Undisturbed, proceeds exactly for an untracked keep that is registered. |
| `EventTracking.Deduplicator.NotifyTerminatingStarted` | pkg/client/event/deduplicator.go:195-209 | Undisturbed, proceeds exactly for an untracked keep that is registered. |
| `Handlers.StepKeepsExclusion` | pkg/client/event/deduplicator.go:79-215 | Every atomic step of every handler keeps the track equal to the set of running handlers, one per entry. |
| `Handlers.AtMostOneHandler` | pkg/client/client.go:246-256 | Under every interleaving at most one deduplicated handler runs per keep and kind, and per digest for signing; the track holds an entry exactly while it runs. |
| `Handlers.SignerAfterStep` | pkg/registry/keeps.go:39-86 | A step changes a keep's signer only by registering a first one or by unregistering the keep. |
| `Handlers.SignerNeverChanges` | pkg/client/client.go:466-482 | The signer of a registered keep never changes until the keep is unregistered, with key generation inside and outside the deduplicator. |
| `Handlers.MemoryStaysOnDisk` | pkg/registry/keeps.go:53-86 | In every run the registry in memory is contained in the saved data, whatever saves and archives fail. |
| `Handlers.FreshLoadAnytime` | pkg/registry/keeps.go:130-170 | With no failed save or archive, and a disk that equals the registry at the start, loading the disk at any point of any run gives back the registry. |
| `Handlers.LateStartExactly` | pkg/client/event/deduplicator.go:79-209 | The one gap in "never handled again", for all four kinds of events: a handler starts on a settled event exactly when, between its look and its addition to the track, the event was settled for good by somebody outside the deduplicator, of another kind, another client, or a handler that completed. |
| `Handlers.HandledTwice` | pkg/client/event/deduplicator.go:84-91 | The gap on an example: the second copy of an event starts after the first has registered its signer. |
| `Registry.Keeps.RegisterSigner` | pkg/registry/keeps.go:39-65 | Memory, disk and error for every outcome of marshalling and saving: a success puts the signer in memory and in its file, no error changes the memory, no other file is touched. |
| `Registry.Keeps.UnregisterKeep` | pkg/registry/keeps.go:76-86 | The keep leaves the memory even when archiving fails; no other directory is touched. |
| `Registry.Keeps.GetSigner` | pkg/registry/keeps.go:89-102 | The registered signer, or none. |
| `Registry.Keeps.LoadExistingKeeps` | pkg/registry/keeps.go:145-157 | The loading loop adds the first signer delivered for each keep and keeps what is loaded. |
| `Registry.LoadKeepsTheFirst` | pkg/registry/keeps.go:146-157 | What loading leaves for one keep: the signer it had, or the first one delivered. |
| `Registry.CallsKeepMemoryOnDisk` | pkg/registry/keeps.go:53-86 | Registering and unregistering keep every signer in memory on disk, for every file outcome. |
| `Registry.FreshLoadIsMemory` | pkg/registry/storage.go:105-148 | When the disk holds one file per registered keep, loading any enumeration of it gives exactly the registry. |
| `Registry.FreshLoadContainsMemory` | pkg/registry/storage.go:29-45 | Even after failed saves and archives, loading one operator's disk gives every registered keep its own signer. |
| `Registry.CallsKeepOneOperator` | pkg/registry/storage.go:38-44 | An operator's calls write one file name and directories named after keeps. |
| `Registry.SharedFileExactly` | pkg/registry/storage.go:38-44 | Two members share a file in a keep's directory exactly when the first forty characters of their IDs agree. |
| `Loader.StepKeepsChannels` | pkg/registry/storage.go:86-103 | Every step keeps the channels open while a goroutine may still send. |
| `Loader.ChannelsAreUsedSafely` | pkg/registry/storage.go:89-94 | In every schedule nothing is sent on a closed channel, no channel is closed twice, and both are closed when loading returns. |
| `Loader.EveryScheduleReturns` | pkg/registry/storage.go:70-154 | Every schedule is bounded by the size of the input and can stop only by returning: no deadlock. |
| `Loader.EveryFileIsAccountedFor` | pkg/registry/storage.go:110-148 | Whatever the schedule, each file gives one signer or one logged error, and the map holds the first signer of each keep. |
| `Loader.EachFileGivesItsResult` | pkg/registry/storage.go:110-148 | The file at any place gives the signer its directory and content spell, or the log entry that says what is wrong with it, in the order of the files. |
| `Loader.RestartRestoresTheRegistry` | pkg/registry/keeps.go:130-170 | Whatever the schedule, a restarted client loads exactly the registry it had. |
| `KeyGeneration.Box.Content` | pkg/ecdsa/tss/params/params_box.go:37-43 | The content while the box is not empty, and an error afterwards. |
| `KeyGeneration.Box.DestroyContent` | pkg/ecdsa/tss/params/params_box.go:53-55 | The box is empty afterwards. |
| `KeyGeneration.GenerateThresholdSigner` | pkg/ecdsa/tss/tss.go:45-129 | The box is emptied exactly when the protocol gets as far as using the content, which it then uses once; an empty box is an error. |
| `KeyGeneration.GenerateSignerForKeep` | pkg/node/node.go:131-252 | For every sequence of failures: each drawn set of pre-parameters is used at most once, none is drawn while one is unused, every submission follows a saved snapshot of the signer with that key, and the first attempt that is not retried ends the loop with the result its failure or success calls for. |
| `KeyGeneration.DeadlineEndsGenerationExactly` | pkg/node/node.go:151-179 | Past the deadline the loop ends exactly when the chain says whether the keep is active; while that call fails it goes on, contrary to its comment. |
| `KeyGeneration.MonitorKeepPublicKeySubmission` | pkg/node/node.go:606-761 | From the events alone: the first two each cause a submission exactly when nothing has ended the watch before and the event is a check that found no key, or one whose confirmation at a known block was answered false. |
| `KeyGeneration.ResubmissionsExactly` | pkg/node/node.go:628-761 | The same for the watch as a function of its events: the log is those submissions in order, each with its own outcome. |
| `KeyGeneration.AtMostTwoResubmissions` | pkg/node/node.go:628-633 | At most two resubmissions, of this key only, decided by the first two checks; the three times of the comment can count the first submission. |
| `KeyGeneration.WatchedSubmissionsAreSnapshotted` | pkg/node/node.go:749 | Resubmissions too follow the saved snapshot of the signer with that key. |
| `DerivationIndex.DerivationIndexStorage.Read` | pkg/extensions/tbtc/recovery/storage.go:109-132 | The greatest stored index or -1; an error exactly when the directory cannot be listed or holds a name that is no number. |
| `DerivationIndex.RemoveOld` | pkg/extensions/tbtc/recovery/storage.go:82-102 | The clean-up removes exactly the smaller indexes that can be removed. |
| `DerivationIndex.DerivationIndexStorage.Save` | pkg/extensions/tbtc/recovery/storage.go:71-106 | The directory after a save, for every failing file operation: the number is stored exactly after a success, and each smaller one that could be removed is gone even when the new one is not written. |
| `DerivationIndex.DerivationIndexStorage.TryAddresses` | pkg/extensions/tbtc/recovery/storage.go:159-190 | The loop ends, with no overflow, because hardened indexes are refused; a dry run writes nothing. |
| `DerivationIndex.DerivationIndexStorage.GetNextAddress` | pkg/extensions/tbtc/recovery/storage.go:135-191 | From the wallet and the stored numbers alone, for real and dry calls and any failing operation: the first unused address from one above the greatest stored number on, after addresses that are all used and, in a real call, saved; a failing derivation or save before it is its error, and each other error has its exact cause. |
| `DerivationIndex.EndsOnce` | pkg/extensions/tbtc/recovery/storage.go:159-190 | A call can end in one place and in one way only, so what it returns is determined by the wallet, the stored numbers and the failing operations. |
| `DerivationIndex.TruncatedKeyExactly` | pkg/extensions/tbtc/recovery/storage.go:57-69 | The directory is named after the first four and the last eight characters of the trimmed key, which must have twelve. |
| `DerivationIndex.CounterMovesBackExactly` | pkg/extensions/tbtc/recovery/storage.go:87-105 | A save moves the counter back exactly when the old file could be removed and the new one not written. |
| `DerivationIndex.IndexesIncrease` | pkg/extensions/tbtc/recovery/storage.go:71-132 | With file operations succeeding, in every run of real and dry calls the index of a call is greater than that of every earlier real call for its key. |
| `DerivationIndex.IndexIsAboveTheStored` | pkg/extensions/tbtc/recovery/storage.go:148-161 | With file operations succeeding, every call finds an index above all those stored for its key. |
| `DerivationIndex.DryRunPredicts` | pkg/extensions/tbtc/recovery/storage.go:179-188 | A dry run changes nothing and gives what the next real call will give. |
| `DerivationIndex.FailedWriteReusesIndexes` | pkg/extensions/tbtc/recovery/storage.go:87-105 | After a failed write that followed a removal, index 0 is handed out again although 7 was used. |
| `Monitoring.Tbtc.AcquireMonitoringLock` | pkg/extensions/tbtc/tbtc.go:997-1004 | Takes the lock and says whether it was free. |
| `Monitoring.Tbtc.ReleaseMonitoringLock` | pkg/extensions/tbtc/tbtc.go:1006-1008 | Frees this lock and no other. |
| `Monitoring.Tbtc.HandleStartEvent` | pkg/extensions/tbtc/tbtc.go:622-759 | For every sequence of signals: the number of actions, and the lock held exactly while the loop still waits. |
| `Monitoring.CourseExactly` | pkg/extensions/tbtc/tbtc.go:685-752 | A signal leads to an action exactly when it is an elapsed timer after at most two failed actions and nothing else; the loop waits on exactly while no more than that has happened. |
| `Monitoring.LockKeysExactly` | pkg/extensions/tbtc/tbtc.go:1010-1019 | For any strings: two monitors share a lock exactly when they have one deposit and one name, spaces aside, or a dash can be read as the separator in two places. |
| `Monitoring.LockKeysDiffer` | pkg/extensions/tbtc/tbtc.go:1010-1019 | For names without a dash, like those of the client, a shared lock means one deposit and one name, spaces aside. |
| `Monitoring.MonitorsExclude` | pkg/extensions/tbtc/tbtc.go:622-759 | In every interleaving at most one monitor per deposit and name runs, its lock is taken exactly while it runs, and it acts at most three times. |
| `Monitoring.NoActionAfterTheEnd` | pkg/extensions/tbtc/tbtc.go:685-752 | A monitor that took a stop, closed or context signal, or left otherwise, never acts again. |
| `Monitoring.MonitorsFollowTheLoop` | pkg/extensions/tbtc/tbtc.go:685-752 | However monitors interleave, each acts exactly as often as its loop would with the same signals alone: up to three times, and no more after a success or an ending signal. |
| `Monitoring.RefusedExactly` | pkg/extensions/tbtc/tbtc.go:627-634 | With names without a dash, a start event is refused exactly while a monitor of the same deposit and name runs. |
| `DepositFilter.Tbtc.ShouldMonitorDeposit` | pkg/extensions/tbtc/tbtc.go:818-879 | Decision and caches of one call, for every error. |
| `DepositFilter.MonitoredExactly` | pkg/extensions/tbtc/tbtc.go:818-879 | In every run and for any errors a deposit is monitored exactly when its state is confirmed, this client signs for it, and the client could learn so from the keep or a young cache entry. |
| `DepositFilter.AnswerIsRemembered` | pkg/extensions/tbtc/tbtc.go:818-879 | The keep's answer decides for the whole caching period, whatever is asked in between and even if the keep cannot be asked any more. |
| `DepositFilter.CachedEqualsUncached` | pkg/extensions/tbtc/tbtc.go:818-879 | Without errors the caches never change the decision. |
| `EventPulls.AdjacentRanges` | staker-rewards/lib/contract-helper.js:91-114 | The events of two adjacent block ranges, one after the other, are those of the joined range. |
| `EventPulls.PullInBatches` | staker-rewards/lib/contract-helper.js:91-114 | The batches, one every 2001 blocks, give the list of the whole range, or fail exactly when some batch fails; the loop ends for any range. |
| `EventPulls.GetPastEvents` | staker-rewards/lib/contract-helper.js:50-122 | However the events are pulled the result is the list of the whole range; each error has its exact cause, and a refused full request is made good exactly when every batch answers. |
| `EventPulls.BetweenExactly` | staker-rewards/lib/contract-helper.js:72-120 | The list of a range holds each event of it and nothing else. |
| `KeepCache.Cache.FetchNewKeeps` | staker-rewards/lib/cache.js:47-142 | The stored cache after a refresh, for every order of completion and every failure; a scan without events fails as well. |
| `KeepCache.NewEntriesExactly` | staker-rewards/lib/cache.js:84-142 | A refresh appends one entry for each fetch that completed: it gives the address, members, block, time and status of a scanned keep that was not cached; if no fetch failed, all of those are fetched. |
| `KeepCache.Cache.RefreshActiveKeeps` | staker-rewards/lib/cache.js:144-179 | Active keeps whose status changed get the status the chain answered, and no other field and no other entry changes; the refresh fails exactly when some status cannot be read, and then only completed queries are stored. |
| `KeepCache.SuccessCovers` | staker-rewards/lib/cache.js:47-112 | A successful refresh covers the new chain if the cache covered the last one seen and the two agree up to twelve blocks below its head. |
| `KeepCache.RefreshIsComplete` | staker-rewards/lib/cache.js:47-112 | After every successful refresh of every run the cache holds each keep of the canonical chain, although only recent blocks are scanned. |
| `KeepCache.QuietRefreshFailsExactly` | staker-rewards/lib/cache.js:57-111 | With every call succeeding, a refresh fails exactly when the chain created no keep from the start block on. |
| `KeepCache.QuietOnlyAfterReorganisation` | staker-rewards/lib/cache.js:13-18 | After a first success that happens only while the last event is young enough for a reorganisation to have removed it. |
| `KeepCache.FailureKeepsTheStart` | staker-rewards/lib/cache.js:110-142 | A failed refresh never moves the start of the next scan; a success moves it to an event's block; entries are never removed. |
| `KeepCache.OneEntryPerKeep` | staker-rewards/lib/cache.js:84-94 | In every run each keep has one entry. |
| `KeepCache.CreationBlockExactly` | staker-rewards/lib/cache.js:84-94 | After a refresh an entry has the creation block of the chain exactly when it is new or had that block before: a keep that is mined again keeps its old one. |
| `FixedPoint.RoundDiv` | staker-rewards/lib/rewards-calculator.js:67-69 | A quotient rounded to twenty decimals lies within half a unit of the exact one, halves up. |
| `FixedPoint.RoundDivMonotone` | staker-rewards/lib/rewards-calculator.js:173-178 | A larger numerator never gives a smaller quotient. |
| `FixedPoint.RoundSqrtIsNearest` | staker-rewards/lib/rewards-calculator.js:167 | The rounded root is the nearest one. |
| `FixedPoint.RoundSqrtMonotone` | staker-rewards/lib/rewards-calculator.js:167 | A larger number never has a smaller root. |
| `Rewards.ScoreIsWithinTheAmount` | staker-rewards/lib/rewards-calculator.js:162-170 | The ETH score is between zero and the amount, and at least the threshold above it. |
| `Rewards.EthScoreExactly` | staker-rewards/lib/rewards-calculator.js:162-170 | The score is the amount below 3000 ETH; from there on, score and threshold together are within one unit of twice the root of their product. |
| `Rewards.BoostExactly` | staker-rewards/lib/rewards-calculator.js:172-181 | The boost is one more than the smaller of the rounded stake ratio and the rounded root of the stake over five hundred times the ETH. |
| `Rewards.ScoreMeetsAtTheThreshold` | staker-rewards/lib/rewards-calculator.js:163-169 | Both formulas give the same score at the threshold of 3000 ETH. |
| `Rewards.ScoreIsNondecreasing` | staker-rewards/lib/rewards-calculator.js:162-170 | More ETH never lowers the score. |
| `Rewards.WeightIsNondecreasingInStake` | staker-rewards/lib/rewards-calculator.js:172-181 | The boost is at least one, and more staked KEEP never lowers the boost or the weight. |
| `Rewards.CheckRequirementsViolations` | staker-rewards/lib/rewards-calculator.js:111-160 | The violations of one operator, in order. |
| `Rewards.ViolationsExactly` | staker-rewards/lib/rewards-calculator.js:135-157 | With the calculated percentages: an SLA is violated exactly when a fifth of the key generations or a twentieth of the signatures is exceeded, or twice for few requests; no violation exactly when all requirements hold. |
| `Rewards.CalculateOperatorsRewards` | staker-rewards/lib/rewards-calculator.js:23-99 | From the parameters alone: the weight of every operator is its score, at most one unit off twice the root, times its boost, and it gets its share of the sum of the weights, rounded, unless it has violations. |
| `Rewards.CalculatedExactly` | staker-rewards/lib/rewards-calculator.js:23-99 | The same for the rewards as a function of the parameters. |
| `Rewards.RewardBound` | staker-rewards/lib/rewards-calculator.js:48-94 | n operators are together paid at most the interval's rewards times 1 + n / (2 * 10^20), for any weights and violations. |
| `Rewards.ExactSharesFit` | staker-rewards/lib/rewards-calculator.js:65-86 | In exact arithmetic the floored shares never exceed the interval's rewards. |
| `Rewards.RewardsFit` | staker-rewards/lib/rewards-calculator.js:48-94 | A guard that can be checked beforehand: while rewards times operators stay below 2 * 10^20, no more than the rewards is paid. |
| `Rewards.RewardsFitExactly` | staker-rewards/lib/rewards-calculator.js:65-86 | The rewards before rounding down fit exactly when the rounded ratios of the operators without violations add up to at most one; then what is paid fits as well. |
| `Rewards.RoundingOvershoots` | staker-rewards/lib/rewards-calculator.js:67-74 | Six operators of one weight are paid 2000 units more than there are, so the bound cannot be the rewards themselves. |
| `Rewards.OthersDoNotMatter` | staker-rewards/lib/rewards-calculator.js:65-86 | Changing the conduct of other operators changes nothing for an operator. |
| `Rewards.RewardsFollowWeights` | staker-rewards/lib/rewards-calculator.js:65-74 | Among operators without violations a greater weight is never paid less; a violation costs the whole reward. |

## Left out

Assumptions of the model:

- One attempt per round: announce, ready and recovery messages carry no attempt number, so messages of an earlier attempt are not modelled. The parent context ends only by its deadline, and a message's sender is its author.
- `OneKeyPerOperator`, required for agreement on the announcement and for the barrier over the whole keep: no two keys have operator identifiers that differ at most in letter case.
- `OnePairEach`, required for agreement on recovery: a member that sends two different pairs in one round can split the group (`TwoPairsSplitTheGroup`); the network's authentication does not prevent it.
- The rate sent by a member is positive only if it was resolved from nonnegative rates (`Resolved`); what another client sends is not checked.
- Go's detection of concurrent map access (a panic) is not modelled; a late message after the context is cancelled is.
- A message that the announce or the ready goroutine takes after its map is complete changes nothing in a full map, and is not a step of its own.
- Strings are compared and lower-cased as ASCII; the whitespace trimmed from an extended key is that of Latin-1.
- The digests the local chain draws at random are nonzero, and different sets of pre-parameters are different; the transaction's virtual size and fee stay within 64 bits.
- The keep's IDs, indexes and members never change and an inactive keep stays inactive, as the comments of the firewall say; each validation takes one instant of the clock, and the clock does not run back.
- TimeCache comes from another repository: adding an item that is present is taken not to refresh it.
- A failed save may leave anything in the file it writes, a failed archive any part of its directory. The persistence library itself is not part of this model.
- Two file names that denote one number in the derivation index directory (a leading zero) are taken for one file.
- Keeps of one chain have different addresses, events come in block order, and a refresh sees one chain. Blocks more than twelve below the head of the last successful refresh do not change.
- When the chain answers whether a keep awaits a signature, the answer is right at that moment.
- Reward amounts, stakes and ETH totals are nonnegative integers and the minimum stake is positive; an SLA percentage is computed without floating-point error.

Weaker than the source, or not modelled:

- GroupProtocol.AnnounceReceiver.Receive: the receive loop, its channel and the retransmission of messages are steps of the session, not code of the class.
- Monitoring.Tbtc.HandleStartEvent: takes its signals as a finite list; timers, backoff durations and subscriptions are represented by the order of the signals only.
- LocalChain.TBTCLocalChain.FundDeposit: sets the output value only; the funding time, transaction hash and output index are fixed constants that no modelled call reads.
- EventTracking.Deduplicator.NotifyKeyGenStarted: its contract is for one goroutine at a time, like those of the other notifications; interleavings are modelled by Handlers.
- KeyGeneration.GenerateSignerForKeep: takes its attempts as a finite list and reports that it still runs when they end; the delay between attempts is left out.
- Registry.Keeps.RegisterSigner: the snapshot directory is separate and appears only as an effect of key generation.
- KeepCache.Cache.FetchNewKeeps: the three concurrent fetches are represented by the order in which they complete.
- Rewards.CalculateOperatorsRewards: the interval's rewards are whole units, as the rewards contract pays them.
- ParseUtxoOutpoint, the public key script, the witness and the transaction encoding: byte formats of libraries, with no decision of their own.
- CalculateSignature's publication loop in node.go: a retry loop like the others, over chain calls only.
- The assets, requirements and SLA calculators and the fraud detector: event queries whose results enter as inputs of the rewards calculation.
- Chain bindings, configuration, commands, metrics, registration with the sortition pool and log output.
