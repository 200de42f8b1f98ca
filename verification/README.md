# A verified model of an end-to-end encrypted messenger

This project models the state machines at the heart of the messenger and proves
what they guarantee over every run. Every `.dfy` file belongs to it;
`dafny verify dfyconfig.toml` checks all of it.

**The Double Ratchet.** `Crypto` makes cryptography symbolic: keys are terms of a
free datatype, Diffie-Hellman is symmetric, and a sealed text opens only under
its own key, associated data and header. `Ratchet` is the session as a function
of its state, with the bounded, insertion-ordered cache of skipped keys.
`RatchetHeap` is the code as written, with buffers that are cloned, wiped and
committed in place, proved against `Ratchet`. `RatchetRun` is two parties and a network that drops,
reorders, duplicates and corrupts; `RatchetSteps`, `RatchetTheorems` and
`RatchetRuns` prove its invariant and the theorems over every run, `RatchetEviction`
what evictions remove, and `RatchetSecrecy` forward secrecy. `X3dh`,
`SessionFacade`, `SessionTheorems`, `SessionOrder` and `SessionHeap` add the handshake and
the messages sent before the reply. `Serialize`, `Base64` and `Revival` show that a
session can be suspended at any point of a run without anybody noticing.

**The group replica protocol.** `Group` proves convergence of the last-writer-wins
state, `GroupMerge` that merging is replaying, `GroupAuthoring` what a stamped
update does, and `GroupRun` puts many replicas with arbitrary clocks together.

**Delivery and prekeys.** `Delivery` is the queue, the lossy push and crashing
clients as one transition system, with the client's code split at each `await`;
`Transport` is the table and the client object, with the paged drain loop.
`Prekeys` is the server's pool and the owner's vault, `PrekeyRun` their runs, and
`PrekeyRepeats` what an opener sent again can do.

**Codecs, store and limiter.** `Envelope` and `EnvelopeBuffers` are the wire format
as a function and as reader and writer objects; `Attachments` is chunking and
reassembly; `WriteChain` and `ChatStore` are the queued writes; `RateLimit` is the
token bucket with its exact window law.

The Double Ratchet follows sections 2.6 and 3.3 to 3.5 of the Signal Double
Ratchet specification, the handshake sections 3.3 and 3.4 of the Signal X3DH
specification, and base64 section 4 of RFC 4648.

Points where the code decides what is true:

- Convergence needs the latest renames to agree on the name: with one stamp and two
  names the first to arrive stays (`Group.TiedRenamesDoNotConverge`).
  `Group.ConvergeExactlyWhen` gives the exact condition, and `GroupRun.ReplicasConverge`
  shows that stamps made by `nextTimestamp` always meet it.
- Merging always equals replaying and always associates. It commutes exactly unless two
  views carry one name stamp with different names (`GroupMerge.MergeCommutesExactlyWhen`;
  an input is `GroupMerge.TiedNamesDoNotCommute`).
- `mergeGroups` keeps the local author of a membership at equal times
  (`GroupMerge.TiedAddersDiffer`); `GroupMerge.MergeKeepsAuthorExactlyWhen` says exactly
  when that differs from a replay.
- An empty optional key would be lost by the session codec, since an empty string is
  falsy (`Serialize.EmptyKeyIsLost`); `Serialize.RestoredExactlyWhen` is the exact
  condition. No session holds an empty key: a peer's ratchet key is checked to have 32
  bytes wherever it enters, and chain keys are 32-byte outputs.
- Replenishing counts on from the highest id still held, so ids come round. An old opener
  sent again can then take a newer prekey and strand the peer it was handed to:
  `PrekeyRepeats.RepeatStrandsNewerPrekey` is such a run,
  `PrekeyRepeats.RepeatHarmlessExactlyWhen` and `PrekeyRepeats.OwnerSeesHarm` say exactly
  when it happens.
- Counters written to the wire wrap at 2^32 (`Envelope.CounterWraps`);
  `Envelope.SurvivesExactlyWhenFits` is the exact condition for a message to survive.
- A decryption that advances the ratchet wipes the buffers of its working copy and replaces
  those of the live session, which keep what they held (`RatchetHeap.Session.DecryptMessage`).

## Model

| member | source | states |
|---|---|---|
| `RatchetRuns.AcceptedIsGenuine` | web/src/lib/crypto/ratchet.ts:437-499 | in every reachable state of a hostile run, an accepted message is one the peer sent, under the peer's own header, opened to the text sealed under it, and never accepted or evicted before |
| `RatchetRuns.OpensExactlyWhen` | web/src/lib/crypto/ratchet.ts:437-499 | a message of the peer opens if and only if its key is cached, or it lies ahead on the current chain or on the next chain with every skipped gap at most 2000 |
| `RatchetRuns.FreshLetterOpens` | web/src/lib/crypto/ratchet.ts:325-350 | a message neither opened nor evicted opens on delivery if and only if the gaps it spans are within the window |
| `RatchetRuns.ExactlyOnePlace` | web/src/lib/crypto/ratchet.ts:325-426 | every sent message is in exactly one place: chain not reached, ahead on the current chain, cached, opened, evicted |
| `RatchetRuns.IssuedOnce` | web/src/lib/crypto/ratchet.ts:257-296 | no (ratchet key, number) header and no message key is used for two messages of a run |
| `RatchetRuns.PartiesOneStepApart` | web/src/lib/crypto/ratchet.ts:388-426 | in every reachable state one party leads by exactly one DH step: it has answered the key the other holds and its root is one step on |
| `RatchetRuns.StepKeepsInv` | web/src/lib/crypto/ratchet.ts:257-499 | every send and every delivery, genuine or not, keeps the two-party invariant |
| `RatchetRuns.ExecuteKeepsInv` | web/src/lib/crypto/ratchet.ts:257-499 | so does every run |
| `RatchetRuns.StartOk` | web/src/lib/crypto/ratchet.ts:187-252 | the two initial states satisfy the invariant |
| `RatchetRuns.CacheAtRest` | web/src/lib/crypto/ratchet.ts:325-385 | in every reachable state the cache holds at most 2000 keys of at most 64 chains, keys of one chain side by side |
| `RatchetEviction.EvictionsDropOldest` | web/src/lib/crypto/ratchet.ts:325-385 | in every run, an accepted message not opened from the cache moves the cache on like a queue: the keys passed over come in at the end in order, what is evicted on the way is a prefix, and with any evicted key kept the cache would pass a bound |
| `RatchetEviction.NoEarlyEviction` | web/src/lib/crypto/ratchet.ts:357-385 | in every run, a key that the bounds leave room for, counted from the newest, stays in the cache; exactly the rest is marked evicted |
| `RatchetEviction.SkipDropsOldest` | web/src/lib/crypto/ratchet.ts:325-350 | the skip loop drops the oldest of old cache and newly skipped keys, and only what would pass a bound if kept |
| `RatchetSecrecy.ForwardSecrecy` | web/src/lib/crypto/ratchet.ts:100-117 | in every run, the key of a message a party has sent, opened or evicted cannot be derived from the state it is left with |
| `RatchetSecrecy.DerivableExactlyUntilSpent` | web/src/lib/crypto/ratchet.ts:388-426 | the key of a message sent to a party can be derived from the party's state exactly until the party has opened or evicted it |
| `RatchetSecrecy.HandshakeIsSecretive` | web/src/lib/crypto/x3dh.ts:141-210 | a handshake whose identity key is no ratchet key begins with a secret no later state gives away |
| `RatchetSecrecy.ExecuteKeepsSecretive` | web/src/lib/crypto/ratchet.ts:388-426 | and every run keeps it so |
| `RatchetCache.DecryptKeepsBounds` | web/src/lib/crypto/ratchet.ts:437-499 | any decryption of any message leaves the cache within both bounds |
| `RatchetCache.EvictBounds` | web/src/lib/crypto/ratchet.ts:357-385 | eviction brings any cache within 2000 keys and 64 chains and keeps only entries it had |
| `RatchetCache.EvictDropsOldest` | web/src/lib/crypto/ratchet.ts:357-385 | on a cache whose chains are contiguous, eviction drops exactly a prefix, the oldest entries |
| `RatchetCache.EvictDropsFewest` | web/src/lib/crypto/ratchet.ts:357-385 | with any dropped entry kept, the cache would hold more than 2000 keys or more than 64 chains |
| `RatchetCache.EvictKeepsNewest` | web/src/lib/crypto/ratchet.ts:357-385 | of any cache exactly the keys stay that are among the 2000 newest and belong to the 64 newest chains of those |
| `RatchetCache.RefusalsOfDecrypt` | web/src/lib/crypto/ratchet.ts:437-499 | the cause of each refusal, as an if and only if on the header and the session before the call |
| `RatchetCache.OldestChainsComeFirst` | web/src/lib/crypto/ratchet.ts:365-385 | the chains listed first are the ones whose entries come first |
| `RatchetCache.LookupFinds` | web/src/lib/crypto/ratchet.ts:449-456 | looking up an id finds an entry under it if there is one |
| `RatchetCache.PutAppends` | web/src/lib/crypto/ratchet.ts:336-347 | a new id goes to the end of the cache |
| `RatchetSteps.DerivedKeyHasOnePlace` | web/src/lib/crypto/ratchet.ts:81-117 | a message key derived from a root towards any ratchet key belongs to one chain and one number only |
| `RatchetSteps.KeysAreIssuedOnce` | web/src/lib/crypto/ratchet.ts:81-117 | equal message keys have equal chain and number |
| `RatchetSteps.SkipLoopKeeps` | web/src/lib/crypto/ratchet.ts:325-350 | skipping ahead within what the peer sent keeps the party's invariant and the place of every message |
| `RatchetSteps.DhRatchetKeeps` | web/src/lib/crypto/ratchet.ts:388-426 | a DH step towards the peer's newest key puts the receiver two levels on with matching chains |
| `RatchetTheorems.SendKeeps` | web/src/lib/crypto/ratchet.ts:257-296 | sending keeps both parties' invariants and adds one genuine message |
| `RatchetTheorems.ReceiveAcceptable` | web/src/lib/crypto/ratchet.ts:437-499 | an acceptable message is accepted with the sealed text and leaves both parties in step |
| `RatchetTheorems.OnlyLettersOpen` | web/src/lib/crypto/ratchet.ts:437-499 | anything a party accepts is an acceptable message of the peer, whatever header was put in front |
| `RatchetHeap.Session.DecryptMessage` | web/src/lib/crypto/ratchet.ts:437-499 | the in-place code computes the specified state; a call that throws leaves every field and every buffer as they were; a success from the cache removes exactly one entry, wipes its buffer and changes no field; any other success replaces the live buffers unwiped; at most 4001 chain advances whatever the header claims |
| `RatchetHeap.Session.DecryptStaged` | web/src/lib/crypto/ratchet.ts:466-499 | the working copy takes every risk; the live session changes only on success |
| `RatchetHeap.Session.DecryptCached` | web/src/lib/crypto/ratchet.ts:449-463 | a cached key is used up and its buffer wiped exactly when the message authenticates; every other buffer is untouched |
| `RatchetHeap.Session.Follow` | web/src/lib/crypto/ratchet.ts:471-493 | on the copy: turn, skip and open as specified, in at most 4001 advances |
| `RatchetHeap.Session.EncryptMessage` | web/src/lib/crypto/ratchet.ts:257-296 | seals under the next message key, moves the chain on in a fresh buffer and wipes the old one, or throws with nothing changed |
| `RatchetHeap.Session.SkipMessageKeys` | web/src/lib/crypto/ratchet.ts:325-350 | equals the specified skip, with at most 2000 advances |
| `RatchetHeap.Session.StepDhRatchet` | web/src/lib/crypto/ratchet.ts:388-426 | equals the specified DH step in fresh buffers, with the old root, chains and private key wiped |
| `RatchetHeap.Session.CloneState` | web/src/lib/crypto/ratchet.ts:511-531 | an equal session in buffers of its own |
| `RatchetHeap.Session.CommitState` | web/src/lib/crypto/ratchet.ts:534-544 | the live session takes over the copy's state and buffers |
| `RatchetHeap.EvictSkippedKeys` | web/src/lib/crypto/ratchet.ts:357-385 | wipes and drops exactly the entries the specification drops, and touches no other buffer |
| `RatchetHeap.AdvanceChainKey` | web/src/lib/crypto/ratchet.ts:109-117 | one chain step gives the next chain key and the message key in new buffers |
| `RatchetHeap.InitializeInitiator` | web/src/lib/crypto/ratchet.ts:187-220 | the initiator's starting state in fresh buffers, or an error for an unusable prekey |
| `RatchetHeap.InitializeResponder` | web/src/lib/crypto/ratchet.ts:228-252 | the responder's starting state in fresh buffers |
| `X3dh.TamperingIsCaught` | web/src/lib/crypto/x3dh.ts:141-266 | whatever a server does to an identity's bundle, a session starts only from the prekey and DH key the identity signed; only the one-time prekey can differ, and then the sides agree exactly if the owner answers with that very key |
| `X3dh.AgreeExactlyWhen` | web/src/lib/crypto/x3dh.ts:141-266 | with or without a one-time prekey, both sides reach one secret and one associated data if and only if the responder used the prekeys it published |
| `X3dh.InitiatorFollowsStandard` | web/src/lib/crypto/x3dh.ts:141-210 | the initiator's secret is the list of shares of section 3.3 of the X3DH specification, its identity comes first in the associated data, and the header names the keys used |
| `X3dh.ResponderFollowsStandard` | web/src/lib/crypto/x3dh.ts:220-266 | the responder's secret is the same list from its own private keys; it refuses exactly unusable keys and a one-time prekey named but not given or given but not named |
| `SessionTheorems.BurstCarriesHandshake` | web/src/lib/crypto/session.ts:136-147 | every message before the reply carries the handshake header, and the run is reachable |
| `SessionTheorems.HandshakeAgrees` | web/src/lib/crypto/session.ts:62-122 | the responder's half of the handshake gives the initiator's secret and associated data |
| `SessionTheorems.AnyOpenerOpens` | web/src/lib/crypto/session.ts:85-133 | any message before the reply opens the responder's session if and only if its number is at most 2000; its one-time prekey is then gone |
| `SessionOrder.BurstOpensInAnyOrder` | web/src/lib/crypto/session.ts:85-163 | however many messages are sent before the reply, they all open, each to its own text, in any order in which at most 2000 are ever passed over and unread |
| `SessionOrder.InOrderIsInWindow` | web/src/lib/crypto/session.ts:155-163 | reading in order is such an order, for any number of messages |
| `SessionOrder.ShortIsInWindow` | web/src/lib/crypto/session.ts:155-163 | so is any order at all of messages numbered up to 2000 |
| `SessionOrder.AnyOpenerThenTheRest` | web/src/lib/crypto/session.ts:85-163 | whichever of those messages arrives first opens the session, which then reads all the others to their own texts in whatever order they follow |
| `SessionOrder.CalmDelivers` | web/src/lib/crypto/session.ts:155-163 | each unread message of the burst opens and evicts nothing |
| `SessionTheorems.OpenerConsumesPrekey` | web/src/lib/crypto/session.ts:85-133 | an opener uses up its one-time prekey whether or not it authenticates, and nothing else of the store |
| `SessionTheorems.ConsumedPrekeyIsRefused` | web/src/lib/crypto/session.ts:101-115 | until the id is issued again, any opener naming a consumed prekey is refused and changes nothing |
| `SessionTheorems.HeaderUntilAnswered` | web/src/lib/crypto/session.ts:136-163 | over any sends and receipts, the handshake header is pending until a message of the peer has been decrypted, and never after |
| `SessionHeap.LiveSession.EncryptFor` | web/src/lib/crypto/session.ts:136-147 | the session object sends what the specification sends, with the pending header |
| `SessionHeap.LiveSession.DecryptFor` | web/src/lib/crypto/session.ts:155-163 | a decrypted message clears the pending header; a refused one changes no field, no buffer and no cached key |
| `Base64.RoundTrip` | web/src/lib/crypto/serialize.ts:49-60 | decoding an encoding gives back the bytes, for every length |
| `Base64.UnpadBtoa` | web/src/lib/crypto/serialize.ts:49-53 | an encoding has four characters for every three bytes begun, and its padding is recognised |
| `Base64.BtoaIsInjective` | web/src/lib/crypto/serialize.ts:49-53 | different bytes have different encodings |
| `Base64.AlphabetIsStandard` | web/src/lib/crypto/serialize.ts:49-53 | the symbols are those of table 1 of RFC 4648 |
| `Base64.GroupsAreNumbers` | web/src/lib/crypto/serialize.ts:49-53 | three bytes and their four sextets are one 24-bit number, a short group filled with zero bits |
| `Base64.AtobFailsExactlyWhen` | web/src/lib/crypto/serialize.ts:55-60 | decoding fails exactly on a character outside the alphabet or a last group of one symbol |
| `Base64.StripsSpaces` | web/src/lib/crypto/serialize.ts:55-60 | white space anywhere makes no difference |
| `Base64.Encode` | web/src/lib/crypto/serialize.ts:49-53 | the loop over the buffer yields the specified text |
| `Base64.Decode` | web/src/lib/crypto/serialize.ts:55-60 | the loop fills a buffer with the decoded bytes, or fails exactly when the text is malformed |
| `Serialize.RestoredExactlyWhen` | web/src/lib/crypto/serialize.ts:79-157 | a session is restored in every field, with cache order and pending header, if and only if no optional key is empty |
| `Serialize.RevivesTo` | web/src/lib/crypto/serialize.ts:79-157 | what any session comes back as |
| `Serialize.RecordIsReadable` | web/src/lib/crypto/serialize.ts:79-107 | every field of the record stands for the session's field of the same name, under format version 1 |
| `Serialize.EmptyKeyIsLost` | web/src/lib/crypto/serialize.ts:126-134 | a session with an empty chain key, which comes back without it |
| `Serialize.EntriesRoundTrip` | web/src/lib/crypto/serialize.ts:94-97 | the skipped keys come back in insertion order |
| `Serialize.SkippedKeyIdIsInjective` | web/src/lib/crypto/ratchet.ts:172-176 | different ratchet keys or numbers never share a cache id |
| `Revival.RevivesAsItself` | web/src/lib/crypto/serialize.ts:79-157 | a suspended session revives as itself and as nothing else, given non-empty keys with distinct byte forms |
| `Revival.SuspendedRunIsTheSame` | web/src/lib/crypto/serialize.ts:79-157 | a two-party run with suspensions inserted anywhere ends in the same world as the run without them |
| `Group.Converge` | web/src/lib/group/state.ts:128-168 | replicas that apply the same changes in any order with any repetition reach the same state |
| `Group.ConvergeExactlyWhen` | web/src/lib/group/state.ts:55-63 | order never matters if and only if no two latest renames carry different names |
| `Group.TiedRenamesDoNotConverge` | web/src/lib/group/state.ts:157-168 | two names under one stamp: the first applied stays |
| `Group.ApplyAllIsLatest` | web/src/lib/group/state.ts:128-168 | each register holds the latest write of its changes, or the base if none beats it |
| `Group.LatestWriteStands` | web/src/lib/group/state.ts:128-168 | what stands in the end is the base or one of the writes, and no write is later, nor as late and by an author greater in the order of strings; the name is that write's |
| `Group.WinsExactlyWhen` | web/src/lib/group/state.ts:55-63 | a write wins if and only if it is later, or as late and by the greater author, nobody counting as the empty name |
| `Group.LessIsLexicographic` | web/src/lib/group/state.ts:62 | one string is less exactly when at the first difference it has the smaller character or has ended |
| `Group.OneOrder` | web/src/lib/group/state.ts:170-175 | a set of members has exactly one sorted list, so every replica shows one order |
| `GroupMerge.MergeGroups` | web/src/lib/group/state.ts:189-228 | the loop over the remote records computes the pairwise merge; different groups are refused |
| `GroupMerge.MergeIsReplay` | web/src/lib/group/state.ts:189-228 | merging two states reached from one base gives the members, times, name and name stamp of replaying both histories, tied renames included |
| `GroupMerge.MergeCommutesExactlyWhen` | web/src/lib/group/state.ts:189-228 | merging either way round agrees if and only if the views do not carry one name stamp with different names |
| `GroupMerge.MergeAssociates` | web/src/lib/group/state.ts:189-228 | merging three views in either grouping agrees, whatever the histories |
| `GroupMerge.TiedNamesDoNotCommute` | web/src/lib/group/state.ts:189-228 | an input at which merging does not commute |
| `GroupMerge.TiedAddersDiffer` | web/src/lib/group/state.ts:196-203 | an input at which merge and replay record different adders |
| `GroupMerge.MergeIsIdempotent` | web/src/lib/group/state.ts:189-228 | merging a state with itself changes nothing |
| `GroupMerge.MergeIsPairwiseMaximum` | web/src/lib/group/state.ts:189-228 | for any two views, related or not: everyone either knows, the larger of their times, the earlier creation |
| `GroupMerge.MergedNameIsLater` | web/src/lib/group/state.ts:210-228 | and the name written later or, as late, by the author greater in the order of strings |
| `GroupMerge.AgreeOnMembers` | web/src/lib/group/state.ts:170-179 | states that agree have the same current members |
| `GroupMerge.MergeKeepsAuthorExactlyWhen` | web/src/lib/group/state.ts:199-207 | the recorded adder and remover are the replay's if and only if it is not a tie the remote author would have won |
| `GroupAuthoring.LatestTimestamp` | web/src/lib/group/state.ts:70-76 | the largest of all times in the state, and one of them |
| `GroupAuthoring.NextTimestamp` | web/src/lib/group/state.ts:91-93 | a stamp past every time in the state, not before the clock, and no later than that needs |
| `GroupAuthoring.NextStampIsUnique` | web/src/lib/group/state.ts:91-93 | that description determines the stamp |
| `GroupAuthoring.CreateGroup` | web/src/lib/group/state.ts:96-126 | the creator and the named members are in from the creation time; an empty id is refused |
| `GroupAuthoring.UpdateGroup` | web/src/lib/client/chat-client.ts:687-715 | stamps with the next stamp and applies additions, then removals, then the name |
| `GroupAuthoring.UpdateTakesEffect` | web/src/lib/client/chat-client.ts:692-715 | in a group begun by createGroup and for any clock, an update leaves exactly the old and the added members less the removed, and a supplied name is in force |
| `GroupAuthoring.UpdateEffect` | web/src/lib/client/chat-client.ts:692-715 | what an update does to one account in any state at all |
| `GroupAuthoring.StampsArePositive` | web/src/lib/group/state.ts:91-126 | every stamp given in such a group is positive, even with a clock before the epoch |
| `GroupRun.UpdatesTakeEffect` | web/src/lib/client/chat-client.ts:692-715 | in every run of such a group each update takes effect so on its author's replica |
| `GroupAuthoring.UpdateWrites` | web/src/lib/client/chat-client.ts:696-715 | exactly the named registers end at the update's stamp |
| `GroupRun.AuthoredAfterAllSeen` | web/src/lib/group/state.ts:70-93 | over a whole run with arbitrary clocks, an update is stamped strictly after everything its author had applied |
| `GroupRun.ReplicasConverge` | web/src/lib/client/chat-client.ts:687-715 | in every run, replicas that have applied the same changes are in the same state |
| `GroupRun.ReplicasMerge` | web/src/lib/group/state.ts:189-228 | in every run, merging two replicas agrees with applying both logs, either way round |
| `Delivery.NothingIsLost` | web/src/lib/transport/socket.ts:278-308 | a row leaves the server only after its own recipient's handler has resolved for it or its expiry has passed |
| `Delivery.RowStays` | server/internal/db/envelopes.go:126-202 | until then it stays unchanged, over any stretch of any run |
| `Delivery.RunsDoNotOverlap` | web/src/lib/transport/socket.ts:278-308 | between two handler starts for one id in one client the first has thrown or been answered, or the client has crashed |
| `Delivery.NoEarlyRepeat` | web/src/lib/transport/socket.ts:278-320 | after a success no handler run for the id starts in the same lifetime until 1000 other ids, all different, have been answered |
| `Delivery.DeliveryRunsThrough` | web/src/lib/transport/socket.ts:278-320 | for a live envelope not yet handled each step from fetch to acknowledgement is open after the one before, and in the end exactly its row is gone and its id remembered |
| `Delivery.ThrownMayRunAgain` | web/src/lib/transport/socket.ts:289-297 | after a handler has thrown, the next copy to arrive starts it again |
| `Delivery.RunKeepsInv` | web/src/lib/transport/socket.ts:278-320 | every interleaving of store, push, fetch, handle, acknowledge, crash and sweep keeps the invariant |
| `Transport.EnvelopeTable.StoreEnvelope` | server/internal/db/envelopes.go:60-118 | each refusal in its order, and otherwise one row more; the queue of a recipient stays within 10000 |
| `Transport.EnvelopeTable.FetchEnvelopes` | server/internal/db/envelopes.go:126-148 | at most 100 live rows of the recipient by creation time and then id; a row is left out only from a full page, and never one created before a row on it; nothing is deleted |
| `Transport.EnvelopeTable.AcknowledgeEnvelopes` | server/internal/db/envelopes.go:174-191 | deletes the caller's named rows and never another account's |
| `Transport.EnvelopeTable.DeleteExpiredEnvelopes` | server/internal/db/envelopes.go:196-202 | deletes exactly the expired rows, so no reader sees a difference |
| `Transport.Connection.RememberId` | web/src/lib/transport/socket.ts:310-320 | the memory keeps the last 1000 different ids |
| `Transport.Connection.Deliver` | web/src/lib/transport/socket.ts:278-308 | deduplicates, handles, then acknowledges; a throwing handler leaves the row and releases the id; an acknowledgement may be answered, lose its answer or never arrive |
| `Transport.Connection.DrainBacklog` | web/src/lib/transport/socket.ts:250-269 | stops within 100 fetches, and after the first if nothing gets acknowledged; however each fetch, handler run and acknowledgement goes, a row leaves only after a handler run for it in this drain resolved; from at most 10000 new envelopes with all calls succeeding each is handled once, oldest first, the queue is empty, and no fetch is made past one beyond its pages of 100 |
| `Prekeys.PrekeyTable.AddOneTimePrekeys` | server/internal/db/prekeys.go:28-66 | refused as a whole past 200; otherwise inserts key by key ignoring conflicts; no pool ever passes 200 |
| `Prekeys.PrekeyTable.FetchBundle` | server/internal/db/prekeys.go:73-130 | gives out at most one prekey of the account and deletes exactly that one |
| `Prekeys.PoolAfterUpload` | server/internal/db/prekeys.go:28-66 | an upload adds only its own keys, only to the uploader's pool, and keeps the cap |
| `Prekeys.InsertExactlyWhen` | server/internal/db/prekeys.go:58-64 | a key is stored if and only if no row of the account has its id and no row at all its public key |
| `Prekeys.EachLandsUnlessConflict` | server/internal/db/prekeys.go:58-64 | of an upload each key is stored that conflicts neither with the table nor with an earlier key of the upload |
| `Prekeys.Vault.TakeOneTimePrekey` | web/src/lib/client/chat-client.ts:102-116 | gives the key under the id, if any, and deletes it |
| `Prekeys.Vault.ReplenishPrekeys` | web/src/lib/client/chat-client.ts:278-302 | above 10 keys nothing; otherwise fresh keys under consecutive ids up to 50 |
| `Prekeys.ExtendedHolds` | web/src/lib/client/chat-client.ts:288-297 | old entries stay and exactly the minted ones join them |
| `PrekeyRun.PrekeysStayInStep` | server/internal/db/prekeys.go:28-130 | each prekey in the pool or handed out and unanswered is in the vault under its id and key; none is handed out or taken twice; no public key is stored twice; every pool stays within 200 |
| `PrekeyRun.InStepExactlyWhen` | web/src/lib/client/chat-client.ts:102-116 | over a whole run with openers of every kind, that holds for good if and only if no stray opener names the id of a prekey then in play |
| `PrekeyRun.OpenerAgrees` | web/src/lib/client/chat-client.ts:102-116 | so the handshake of every handed-out prekey completes with the key the peer used |
| `PrekeyRepeats.RepeatHarmlessExactlyWhen` | web/src/lib/client/chat-client.ts:278-302 | the opener of an answered prekey, sent again, does no harm if and only if no replenishing since has minted its id for a prekey still in play |
| `PrekeyRepeats.OwnerSeesHarm` | web/src/lib/client/chat-client.ts:102-116 | where no upload was lost, a stray opener does no harm if and only if the vault has nothing under its id, and then it is refused with nothing changed |
| `PrekeyRepeats.RepeatStrandsNewerPrekey` | web/src/lib/client/chat-client.ts:278-302 | a run in which an answered id is minted again, served and handed out, and the old opener, sent again, takes the new key |
| `PrekeyRepeats.InPlaySince` | web/src/lib/client/chat-client.ts:288-297 | a prekey in play at some point was in play before or has been minted since |
| `PrekeyRun.StepKeepsInv` | web/src/lib/client/chat-client.ts:278-302 | minting, uploads late, lost or refused, fetches, answers, harmless strays and other accounts' actions keep the invariant |
| `Envelope.AcceptsExactlyThePrinted` | web/src/lib/crypto/envelope.ts:138-227 | parsing accepts exactly the printed forms of messages that fit, one each |
| `Envelope.SurvivesExactlyWhenFits` | web/src/lib/crypto/envelope.ts:138-227 | a message survives the wire if and only if its counters and ids are u32 and its ciphertext is not empty |
| `Envelope.ParseOfPrint` | web/src/lib/crypto/envelope.ts:138-227 | what any printed message reads back as, wrapped counters and the empty ciphertext included |
| `Envelope.CounterWraps` | web/src/lib/crypto/envelope.ts:60-65 | message number 2^32 arrives as number 0 |
| `Envelope.PrintOfParse` | web/src/lib/crypto/envelope.ts:176-227 | re-encoding anything accepted gives the same bytes |
| `Envelope.NormalLayout` | web/src/lib/crypto/envelope.ts:162-166 | the bytes of a normal message, field by field at their offsets, numbers big-endian |
| `Envelope.InitialLayout` | web/src/lib/crypto/envelope.ts:138-159 | the bytes of an initial message, field by field at their offsets, with and without a one-time prekey |
| `Envelope.ParseOutcome` | web/src/lib/crypto/envelope.ts:176-227 | acceptance, and the reason of a refusal, from the length and four bytes of the input alone |
| `Envelope.HeaderBytesAreInjective` | web/src/lib/crypto/ratchet.ts:145-152 | the header bytes bound into the AEAD determine the header |
| `EnvelopeBuffers.DecodeMessage` | web/src/lib/crypto/envelope.ts:176-227 | the reader returns the message whose printed form the input is, and fails only if there is none |
| `EnvelopeBuffers.EncodeMessage` | web/src/lib/crypto/envelope.ts:138-166 | the writer produces the printed form and refuses exactly keys of the wrong length |
| `EnvelopeBuffers.Concatenate` | web/src/lib/crypto/envelope.ts:72-81 | the copied buffer is the parts in order |
| `EnvelopeBuffers.Reader.GetU8` | web/src/lib/crypto/envelope.ts:96-99 | reads one byte or reports truncation without moving |
| `EnvelopeBuffers.Reader.GetU32` | web/src/lib/crypto/envelope.ts:101-107 | reads a big-endian number or reports truncation without moving |
| `EnvelopeBuffers.Reader.GetBytes` | web/src/lib/crypto/envelope.ts:109-115 | reads so many bytes or reports truncation without moving; the offset never passes the end |
| `Attachments.AnyOrderAssembles` | web/src/lib/crypto/content.ts:330-406 | chunks fed in any order with any repeats: nothing while an index is missing, and from then on exactly the original bytes, name and caption, for every size including zero |
| `Attachments.StrangersAreRefused` | web/src/lib/crypto/content.ts:363-370 | mid-transfer, a chunk of another file or with another count is refused and changes nothing |
| `Attachments.CompleteIsWhole` | web/src/lib/crypto/content.ts:360-405 | whatever chunks arrive, forged ones among them, a complete file is the latest matching chunk of every index in order, under the first chunk's name and of the size it announced |
| `Attachments.ChunkAttachment` | web/src/lib/crypto/content.ts:330-352 | as few chunks as hold the file, at least one; each has the file's id, name, type, time and size, its index and the total, its own part of the bytes in at most 43692 characters, and the caption only on the last |
| `Attachments.ChunkFits` | web/src/lib/crypto/content.ts:331-344 | every chunk's base64 is within the bound, and only an empty file has an empty chunk |
| `Attachments.Assembler.Add` | web/src/lib/crypto/content.ts:360-405 | one chunk changes the assembler and answers as specified, every refusal included |
| `Attachments.Finish` | web/src/lib/crypto/content.ts:375-404 | the ordered copy is the parts together |
| `WriteChain.InterleavingIsSerial` | web/src/lib/store/chat.ts:47-56 | any interleaving leaves each record as running its jobs one at a time in call order would, failing jobs included, and jobs settle in that order |
| `WriteChain.StepKeepsInv` | web/src/lib/store/chat.ts:47-56 | calls, starts, successes and failures keep the chains linked in call order with at most one job at work per record |
| `WriteChain.QueueNeverStalls` | web/src/lib/store/chat.ts:47-56 | while a job on a record has not settled, some job on it can start or finish, whether those before it succeeded or failed |
| `ChatStore.HistoryOfRun` | web/src/lib/store/chat.ts:157-250 | whatever the interleaving and the failures, ids stay unique, none is lost, every append that settled well is present, reaction lists stay non-empty, sorted and duplicate-free |
| `ChatStore.LatestJobShowsInRun` | web/src/lib/store/chat.ts:157-250 | at every point of every run a message shows the last job on it that settled well: a retraction leaves no body and no attachment, a status change its status, a reaction is there or gone |
| `ChatStore.PerformShows` | web/src/lib/store/chat.ts:157-250 | after a job its message shows it, and every other message is as it was |
| `ChatStore.PerformKeepsGood` | web/src/lib/store/chat.ts:157-250 | one job keeps all that, and adds at most its own id at the end |
| `ChatStore.ReactedExactly` | web/src/lib/store/chat.ts:214-233 | exactly this account's reaction with this emoji is set or cleared |
| `ChatStore.AppendStores` | web/src/lib/store/chat.ts:157-166 | an append leaves its own fields on the message with its id, keeps the message's others, and touches no other message |
| `ChatStore.PatchTouchesOnly` | web/src/lib/store/chat.ts:175-250 | a status change, a retraction or a reaction touches only its own part of the message it names; without a new envelope id the old one stays |
| `ChatStore.AppendIsIdempotent` | web/src/lib/store/chat.ts:152-169 | a redelivered message changes nothing the second time |
| `ChatStore.ChatStore.Serialize` | web/src/lib/store/chat.ts:47-56 | a call is chained behind what the record is waiting for |
| `ChatStore.ChatStore.Complete` | web/src/lib/store/chat.ts:158-166 | the rest of a job: find, change in place or push, write back |
| `ChatStore.FindIndex` | web/src/lib/store/chat.ts:162 | the first index with the id, if any |
| `RateLimit.TokensAreLeastRoom` | server/internal/ratelimit/ratelimit.go:39-62 | the tokens a request finds are the minimum, over the key's request times s up to now, of burst + rate * (now - s) minus requests allowed since |
| `RateLimit.AllowsExactlyWhenFits` | server/internal/ratelimit/ratelimit.go:39-62 | a request passes if and only if every window ending with it has room; a denial has a full window to show |
| `RateLimit.WindowBound` | server/internal/ratelimit/ratelimit.go:39-62 | any stretch of requests admits at most burst plus rate times its length |
| `RateLimit.ClockWindowBound` | server/internal/ratelimit/ratelimit.go:39-62 | so does any window of the clock |
| `RateLimit.Limiter.Allow` | server/internal/ratelimit/ratelimit.go:39-62 | the answer is the window law on the key's history; other keys' buckets are untouched |
| `RateLimit.Limiter.constructor` | server/internal/ratelimit/ratelimit.go:29-36 | rate per minute becomes rate per second; no bucket exists yet |

## Left out

- Cryptographic primitives (libsodium, HMAC and HKDF, Ed25519, Argon2id, the vault's AEAD): represented by free terms; public keys are values, not buffers.
- RatchetRuns.OpensExactlyWhen: header counters are unbounded, as `number` is in the code; the wrap at 2^32 belongs to the codec and is in `Envelope`.
- Overlapping asynchronous calls on one session, and a session reloaded from a record older than its last send: the ratchet claims are for sequential calls in one life.
- GroupMerge.MergeIsReplay: speaks of times, members and name; the recorded adders and removers differ at ties, as `GroupMerge.MergeKeepsAuthorExactlyWhen` says.
- GroupAuthoring.UpdateTakesEffect: for groups begun by `createGroup`; a state with only records removed before time 0, which no such group reaches, is covered by `GroupAuthoring.UpdateEffect`.
- The group receive handler (membership gate, overwriting create) and `leaveGroup`, which is one stamped removal.
- `currentMembers` is a set here; that its sorted list is unique is `Group.OneOrder`.
- Delivery.NothingIsLost: each SQL statement or transaction is one step; isolation levels and locks are not modelled, so the caps are claimed for serialised transactions.
- The web socket itself: opening, authentication, back-off and retry timers, status events; a push is a copy that may arrive late, twice or never.
- Delivery of an envelope handled but not acknowledged is not retried by the same client, and nothing is claimed about when it goes.
- Transport.Connection.DrainBacklog: one drain at a time with a fixed clock; pushes arriving meanwhile are in `Delivery`.
- PrekeyRun.PrekeysStayInStep: runs without a crash between upload and saving the vault; the signed prekey and the persistence of the vault are not modelled.
- JSON encoding and parsing, and the content-type checks on decoded JSON.
- RatchetSecrecy.ForwardSecrecy: one state is taken at one point, and nothing else; what an attacker does with several states or with a party's later traffic is not modelled.
- Strings are compared character by character; JavaScript compares UTF-16 code units, which differ beyond the basic plane.
- ChatStore.HistoryOfRun: optional fields set to `undefined` are treated as absent, and appended messages carry well-formed reactions or none.
- `upsertConversation`, identities, sessions and groups in the store, which are single read-modify-writes or overwrites of other records; `incrementUnread` and `deleteConversation` work partly outside the chain.
- RateLimit.TokensAreLeastRoom: real arithmetic and time, no floating-point rounding.
- User interface, HTTP handlers, configuration, server hub, migrations and the sweeper's timer.
