# A verified model of the Solana VRF program and its oracle

A Dafny model of four parts of the system and proofs about them.

- **The request queue** is one account buffer used as an in-place allocator: a 12-byte
  header and, from offset 16, items of 96 bytes followed by discriminator, metas and
  arguments, each 8-aligned. Removal clears a flag; insertion reuses the first free item
  of exactly the right span or appends; free items at the end are trimmed.
- **The program** moves requests through that queue: request, provide, purge, pause,
  close, delegate and initialise, with the clock, lamports and the count of open queues.
- **The VRF** is a prover and two verifiers over a group of prime order.
- **The oracle** follows views of the queue and runs one fulfilment task per request.

## How it is put together

| files | content |
|---|---|
| `Bytes`, `QueueItems` | little-endian integers and the byte images of header, item and meta |
| `QueueSpec` | the queue as a value, total on arbitrary bytes: scan, remove, purge, insert |
| `QueueScan`, `QueueAccount` | the traversal, and the class over a byte array whose methods are proved equal to `QueueSpec` |
| `QueueTiling`, `QueueRemoval`, `QueueInvariant`, `QueueInsertion`, `QueueRequests` | tiling, removals, the invariant, insertion, the list of live requests with payloads |
| `Expiry`, `RequestId`, `Instructions`, `Initialization` | age arithmetic, the id preimage, the instructions as functions, account bytes and chunked creation |
| `Program` | the instruction processors as a class, proved equal to `Instructions` |
| `QueueLife`, `LifeEffects`, `LifeHistory`, `LifeFees`, `LifeUse`, `LifeExact` | one queue over whole runs; `LifeExact` says in numbers exactly what each instruction does |
| `Registry` | all oracles and queues: the open-queue count |
| `Group`, `Vrf`, `VrfLife` | the group laws, prover and verifiers; runs of the program with its own verifier |
| `OracleProtocol`, `OracleClient`, `OracleSafety`, `OracleOrder`, `OracleExact` | the view-diff protocol, its shared maps as a class, its safety, which order of views is enough, and exactly when it is safe |
| `ChainHistory` | runs of the program give the history the oracle's protocol needs |

A failed instruction changes nothing, since transactions are atomic. The queue header is
kept decoded beside the buffer; `SyncedSameEntries` and `HeaderBytesUntouched` say that
this loses nothing. Closures that capture state are visitors with their state passed along.

What is assumed: slots never go back and the time is fixed within a slot; all lamports
together fit in 64 bits; the callback leaves the queue's data alone, which only its owner program may write
and the runtime lets no callee re-enter; hash collisions are
excluded only where a statement says so (`NoCollision`), and then only among the preimages
of that run. Curve arithmetic is given by laws, hashing and HKDF are parameters;
`LawsHaveModel` shows that the laws are consistent.

Where code and comments differ the model follows the code. The purge comment says that
requests older than 120 s are removed; `ExpiryExact` gives the exact rule, and
`OlderThanTtlNotAlwaysExpired` two ages for which the comment fails. The comment on
`request_randomness` speaks of resizing the queue account; the code does not resize it.
The comment on the view guard (processor.rs:159-161) says that a stale view cannot resurrect
a request. The guard does not give that: after a snapshot of a slot, notifications of that
slot that are still under way are accepted, and a snapshot is taken on every connection and
every five seconds, so ordinary operation can meet this case. `OneTaskExactly` gives the exact
condition, `StreamedViewsSafe` a check that would ensure it, and
`LaggingNotificationsDuplicateTasks` a run in which a request gets two tasks.

## Model

| member | source | states |
|---|---|---|
| QueueItems.ItemLayout | api/src/state/queue.rs:29-48 | every field's place in the 96-byte image, with no padding |
| QueueItems.ItemRoundTrip | api/src/state/queue.rs:202-210 | reading back any written item gives the item |
| QueueItems.ItemBytesRoundTrip | api/src/state/queue.rs:202-210 | any 96 bytes read as an item are written back unchanged |
| QueueItems.ClearUsedByte | api/src/state/queue.rs:457-461 | clearing the flag of a stored item changes exactly one byte and only that field |
| QueueItems.HeaderRoundTrip | api/src/state/queue.rs:10-25 | header to bytes and back |
| QueueItems.HeaderBytesRoundTrip | api/src/state/queue.rs:10-25 | 12 bytes to header and back |
| QueueItems.HeaderLayout | api/src/state/queue.rs:10-25 | every field's place in the 12-byte header |
| QueueItems.MetasRoundTrip | api/src/state/queue.rs:72-81 | the metas cast from their bytes are the metas written |
| QueueItems.MetaLayout | api/src/state/queue.rs:90-96 | meta k takes bytes 33k to 33k + 33, its key and then its flag |
| QueueTiling.AlignUpNearest | api/src/state/queue.rs:155-159 | the result is the nearest multiple of eight not below, and alignment commutes with aligned shifts |
| QueueTiling.ScanTiles | api/src/state/queue.rs:223-255 | on any bytes, a scan returns items that lie back to back until no further item fits |
| QueueTiling.ScanThrough | api/src/state/queue.rs:223-255 | a scan goes through any stored tiling and on from where it ends |
| QueueTiling.TilesScan | api/src/state/queue.rs:223-255 | conversely any back-to-back tiling is exactly what the scan returns |
| QueueTiling.ScanBound | api/src/state/queue.rs:223-255 | on any bytes and any cursor a scan visits at most (end - start) / 96 items |
| QueueTiling.EntriesBound | api/src/consts.rs:27-30 | at the account cap at most 5461 items are visited |
| QueueTiling.EntriesTrim | api/src/state/queue.rs:339-356 | after the trim the scan sees exactly the items without the trailing free ones |
| QueueTiling.EntriesRemoveWhere | api/src/state/queue.rs:467-504 | after a purge the scan sees the same items, the picked ones free, less the free ones at the end |
| QueueScan.WalkFindsFirst | api/src/state/queue.rs:442-447 | a lookup scan returns the first live item satisfying the test, with its logical index and position, or none satisfies it |
| QueueScan.WalkSpan | api/src/state/queue.rs:257-277 | one walk yields both the end of the last live item and the first free item of exactly the span |
| QueueScan.WalkIter | api/src/state/queue.rs:430-440 | iteration yields the live items in position order |
| QueueAccounts.QueueAccount.ScanItems | api/src/state/queue.rs:223-255 | the in-place traversal, with early return, is the walk over the scanned entries, on arbitrary bytes |
| QueueAccounts.QueueAccount.TrimTrailingHoles | api/src/state/queue.rs:339-356 | moves the cursor back to the end of the last live item, never forward |
| QueueAccounts.QueueAccount.IterItems | api/src/state/queue.rs:430-440 | returns the live list's items in order |
| QueueAccounts.QueueAccount.GetItemByIndex | api/src/state/queue.rs:442-447 | returns the live list's element at the index, or none beyond its end |
| QueueAccounts.QueueAccount.FindItemById | api/src/state/queue.rs:506-511 | returns the first live item with the id and its index |
| QueueAccounts.QueueAccount.RemoveItem | api/src/state/queue.rs:449-465 | header and bytes become those of the removal function; a bad index changes nothing |
| QueueAccounts.QueueAccount.RemoveItemsMatching | api/src/state/queue.rs:467-504 | the single pass in place gives the purge function's header, bytes and report |
| QueueAccounts.QueueAccount.ScanForReusableSpan | api/src/state/queue.rs:257-277 | end of the last live item and the first exact-span free item |
| QueueAccounts.QueueAccount.WriteItemAt | api/src/state/queue.rs:279-317 | writes payload and item as one contiguous image, or refuses and writes nothing |
| QueueAccounts.QueueAccount.AddItemWithId | api/src/state/queue.rs:376-428 | gives the insertion function's header, bytes and index; on a well-formed queue a refusal changes nothing |
| QueueRemoval.LiveAfterRemove | api/src/state/queue.rs:449-465 | the live list loses exactly the element at the index, which is returned with its flag cleared; an index beyond the list is refused |
| QueueRemoval.LiveAfterRemoveWhere | api/src/state/queue.rs:467-504 | survivors are the live items not picked, in order; the report is the picked ones, each once, in position order |
| QueueRemoval.RemoveWhereCompose | api/src/state/queue.rs:467-504 | two removals in a row leave the same header and bytes as one |
| QueueRemoval.PurgeAbsorbsRemove | api/src/state/queue.rs:449-504 | removing a matching item first does not change what a purge leaves |
| QueueRemoval.PurgeIsRepeatedRemoval | api/src/state/queue.rs:449-504 | for any predicate and any trimmed queue, on arbitrary bytes, the single-pass purge leaves the same header and bytes as removing the matching items one at a time in any order until none is left |
| QueueInvariant.TilingInvariant | api/src/state/queue.rs:212-255 | items are 8-aligned, without gap or overlap from 16 to the aligned cursor, payloads inside their own extent and the buffer |
| QueueInvariant.PayloadSurvivesRemoval | api/src/state/queue.rs:65-88 | removal leaves every payload readable and unchanged, also of the removed items |
| QueueInvariant.RemovalKeepsInvariant | api/src/state/queue.rs:449-504 | tiling, live last item, cursor bounds and item count survive every removal |
| QueueInsertion.PlacedExtents | api/src/state/queue.rs:304-311 | within the limits, with a discriminator below 65536 bytes, no narrowing cast loses anything |
| QueueInsertion.PayloadStoredIffDiscFits | api/src/state/queue.rs:304-311 | the payload reads back as given if and only if the discriminator's length fits 16 bits |
| QueueInsertion.InsertionExact | api/src/state/queue.rs:376-428 | for every payload: succeeds if and only if within limits and an exact-span free item exists or the aligned tail fits; where it goes, which error otherwise; the invariant survives if and only if the discriminator's length fits 16 bits, and then the id taken from the final position and the new live list |
| QueueInsertion.PayloadSurvivesInsertion | api/src/state/queue.rs:279-317 | insertion of any payload, also into a reused span, leaves every live payload unchanged |
| QueueInsertion.HeaderBytesUntouched | api/src/state/queue.rs:128-134 | on a well-formed queue neither a removal nor an insertion writes below the item area |
| QueueRequests.RequestsAfterAdd | api/src/state/queue.rs:376-428 | the request with its payload as given appears at the returned index, all others unchanged |
| QueueRequests.RequestsAfterRemove | program/src/provide_randomness.rs:151-156 | the request leaves the list and its payload is still read back after the removal |
| QueueRequests.RequestsAfterRemoveWhere | program/src/purge_expired_requests.rs:44-55 | a purge leaves exactly the other requests, payloads unchanged |
| Expiry.ExpiryExact | api/src/state/queue.rs:53-63 | for non-negative times in order: expired if and only if the elapsed stamps modulo 65536 are at least 31; never up to 120 s, always from 124 s to 262140 s |
| Expiry.OlderThanTtlNotAlwaysExpired | program/src/purge_expired_requests.rs:4-5 | ages above the TTL at which a request is nevertheless not expired |
| Expiry.HostAgrees | vrf-oracle/src/oracle/processor.rs:43-57 | the host's rule and age are the program's except for stamps 1 to 15 units ahead, which it reads as age 0 |
| RequestId.PreimageInjective | program/src/request_randomness.rs:136-145 | the hashed bytes determine every field |
| Instructions.TotalNeverSaturates | program/src/purge_expired_requests.rs:41-55 | for up to 5461 items, the most a permitted account holds, the purge's running total is the exact sum |
| Initialization.StoreLoad | api/src/state/queue.rs:166-200 | loading stored account data gives the queue back, header bytes included, unless the cursor is 0, which loading replaces |
| Initialization.SyncedSameEntries | api/src/state/queue.rs:128-134 | no entry and no part of the invariant depends on the header's bytes in the buffer |
| Initialization.FreshWellFormed | program/src/initialize_oracle_queue.rs:111-118 | a new queue of 20 bytes up to the cap satisfies the invariant and is empty |
| Initialization.FinalisingCall | program/src/initialize_oracle_queue.rs:97-118 | for a registered oracle the last call turns a zeroed account into exactly the fresh queue of the target size |
| Initialization.ChunkedInitialization | api/src/sdk.rs:81-97 | for every target from 20 bytes to the cap: of the n built instructions the first n-1 each add 10240 zero bytes, the n-th initialises at exactly the target, one more is refused |
| QueueLife.InitPhaseAgrees | program/src/initialize_oracle_queue.rs:56-124 | initialisation by phase is initialisation of the account's bytes, errors included |
| Program.OracleQueue.TransferFee | program/src/fees.rs:22-42 | moves the amount if both checked operations succeed, otherwise names the failing one |
| Program.OracleQueue.ProcessRequest | program/src/request_randomness.rs:83-165 | queue, balances and result are those of the request function followed by the fee |
| Program.OracleQueue.BuildCallback | program/src/provide_randomness.rs:161-180 | the vectors built by extension are the callback instruction |
| Program.OracleQueue.ProcessProvide | program/src/provide_randomness.rs:110-222 | checks in order, removal, callback from the bytes after removal, identity check and payout |
| Program.OracleQueue.ProcessPurge | program/src/purge_expired_requests.rs:31-66 | removes the expired requests, pays their total, reports how many |
| Program.OracleQueue.ProcessSetPaused | program/src/set_queue_paused.rs:21-45 | writes the flag, or refuses values above one and changes nothing; items and invariant do not depend on it |
| Program.OracleQueue.CheckUnused | program/src/delegate_oracle_queue.rs:58-65 | passes exactly when there is no live item and only zeros after the header |
| LifeEffects.RequestEffect | program/src/request_randomness.rs:83-165 | an accepted request appears as issued at a position no live request had, only on an unpaused queue |
| LifeEffects.ProvideEffect | program/src/provide_randomness.rs:110-222 | a fulfilment removes one request of an earlier slot, verified, and its callback is the one that request called for |
| LifeEffects.PurgeEffect | program/src/purge_expired_requests.rs:40-64 | a purge splits the live list into the expired requests, paid for in full, and the others, unchanged |
| LifeEffects.SoundRun | api/src/state/queue.rs:341-520 | the tiling invariant holds in every state of every run |
| LifeHistory.HistoryRun | program/src/provide_randomness.rs:110-157 | in every run each issued request is exactly one of fulfilled, purged or live, with its payload as given |
| LifeHistory.PreimagesNeverRepeat | program/src/request_randomness.rs:128-147 | no two requests of a queue's whole history are hashed from the same bytes |
| LifeHistory.IdsNeverRepeat | program/src/request_randomness.rs:128-147 | short of a hash collision no id is issued twice, over closings and reopenings too |
| LifeHistory.AtMostOneCallback | program/src/provide_randomness.rs:114-157 | short of a hash collision each id gets at most one callback, and a fulfilled request is neither purged nor live |
| LifeHistory.CallbackAsRequested | program/src/provide_randomness.rs:151-212 | every callback is the one asked for at request time, for a verified output, signed by the right identity, without the oracle among the requested accounts |
| LifeFees.FeeConservation | program/src/request_randomness.rs:150-165 | in every run: balance equals reserve plus the cost of live requests; charges equal payouts plus what is owed; the oracle's balance has grown by exactly the payouts and what closings refunded; exempt queues move nothing; lamports are conserved |
| LifeFees.PayoutsNeverFail | program/src/fees.rs:22-42 | in every run a fulfilment that passes its checks is paid and a purge always completes |
| LifeUse.DelegationExact | program/src/delegate_oracle_queue.rs:54-65 | in every run the gate is open if and only if no request was stored since initialisation |
| LifeUse.PausedNeverGrows | program/src/request_randomness.rs:89-92 | while the queue stays paused its live requests only shrink, in any run |
| LifeUse.PurgeEmpties | program/src/purge_expired_requests.rs:44-55 | a purge at which all are expired leaves count 0 and cursor 16 |
| LifeUse.DrainThenClose | program/src/close_oracle_queue.rs:58-73 | once all requests are 124 s to 262140 s old, purge then close succeeds, in every run that leaves the queue open |
| LifeExact.StoresExactly | program/src/request_randomness.rs:83-147 | which requests are stored, with the limits 8, 25 and 512 and the room needed in numbers, and the error of the others |
| LifeExact.RequestExactly | program/src/request_randomness.rs:83-165 | in every run a request is stored if and only if the queue is open and unpaused, it is within the limits, there is room and the payer holds 800000 or 500000 lamports by kind, which then move to the queue |
| LifeExact.IdsAreHashes | program/src/request_randomness.rs:128-147 | in every run an id is the hash of seed, slot, slot hash, discriminator, program, time and position, written out |
| LifeExact.FeesByKind | api/src/consts.rs:20-21 | in every run 800000 lamports were charged per high-priority request and 500000 per other, and the same paid to the oracle for each fulfilled or purged one |
| LifeExact.PurgeExactly | program/src/purge_expired_requests.rs:40-55 | in every run a purge keeps a request if and only if it is younger than 31 stamps and records all others as purged |
| LifeExact.PauseExactly | program/src/set_queue_paused.rs:21-45 | in every run pausing writes exactly the flag given, 0 or 1, and nothing else |
| LifeExact.CloseExactly | program/src/close_oracle_queue.rs:58-76 | in every run closing succeeds if and only if the queue is open without live requests, and refunds exactly the reserve |
| LifeExact.DelegateExactly | program/src/delegate_oracle_queue.rs:54-65 | in every run delegation succeeds if and only if the queue is open and nothing was stored since it was opened |
| LifeExact.OpensExactly | program/src/initialize_oracle_queue.rs:56-124 | in every run exactly when an account grows or opens, and the queue it opens as |
| LifeExact.InitializeExactly | program/src/initialize_oracle_queue.rs:56-124 | the bytes of a zeroed account after the instruction, for every size and target, and the errors |
| LifeExact.InitializedRefused | api/src/loaders.rs:50-61 | an account with any byte set is refused |
| LifeExact.LoadExactly | api/src/state/queue.rs:166-200 | which data loads, and every header field read from its place |
| Registry.OpenQueuesCounted | program/src/initialize_oracle_queue.rs:120-122 | in every run the stored count is the number of initialised queues and the oracle list names each data account once |
| Registry.OracleKeptWhileQueuesOpen | program/src/modify_oracles.rs:97-108 | an oracle can be removed if and only if it is registered and has no initialised queue |
| Registry.OraclesExactly | program/src/modify_oracles.rs:85-111 | in every run exactly when an oracle is added or removed, the new list and counts, and the errors |
| Registry.QueuesExactly | program/src/close_oracle_queue.rs:58-76 | in every run exactly when a queue account grows, opens or closes, how the count follows, and the errors |
| Registry.Accounts.ModifyOracles | program/src/modify_oracles.rs:85-111 | adding and removing in place, with the list filtered by a loop; the count stays right |
| Registry.Accounts.ProcessInitialize | program/src/initialize_oracle_queue.rs:56-124 | grows or finalises the account and counts the queue on finalisation only; the count stays right |
| Registry.Accounts.ProcessClose | program/src/close_oracle_queue.rs:58-76 | closes an empty queue and uncounts it; the count stays right |
| Group.LawsHaveModel | vrf/src/vrf.rs:4-6 | the laws assumed of the curve are consistent |
| Vrf.Completeness | vrf/src/vrf.rs:47-158 | for every key and input that hashes to a point, the oracle's verifier accepts the computed proof |
| Vrf.ChainVerifyIs | api/src/verify.rs:26-93 | the verifier on encodings accepts exactly when everything decodes, the scalar is canonical and both equations hold for the challenge as a number |
| Vrf.ChallengeIs | api/src/verify.rs:40-52 | both sides compute as challenge the little-endian value, modulo the order, of the tagged hash of the tagged hash of output, commitments, key and input |
| Vrf.TranscriptInjective | vrf/src/vrf.rs:80-92 | the bytes hashed into the challenge determine all five parts |
| Vrf.TagBytes | vrf/src/consts.rs:1-5 | the domain tags of both crates, byte by byte |
| Vrf.HashToPointExactly | vrf/src/vrf.rs:23-35 | the hash point is the first of 512 tagged, counted hashes of the input that decodes, and there is none if none does |
| Vrf.ComputedTranscript | vrf/src/vrf.rs:47-101 | output, commitments and response in terms of the key, the hash point, the derived nonce and the challenge as numbers |
| Vrf.NonceMaterialInjective | vrf/src/vrf.rs:62-74 | the key material of the nonce determines key and input |
| Vrf.KeypairDerived | vrf/src/vrf.rs:13-21 | the key pair is derived from the whole identity keypair and belongs together |
| Vrf.VerifiersAgree | api/src/verify.rs:26-129 | both verifiers give the same answer for every key that is a point, every canonical scalar and arbitrary other bytes; where the oracle's would panic the program refuses |
| Vrf.ComputedProofAcceptedOnChain | vrf/src/vrf.rs:47-101 | what the prover computes passes on chain |
| Vrf.SpecialSoundness | api/src/verify.rs:54-92 | two accepted responses to different challenges for the same commitments force the correct output |
| Vrf.WrongOutputPinsChallenge | api/src/verify.rs:40-92 | an accepted wrong output needs the number hashed from its transcript to be the one answerable value |
| Vrf.ResponseUnique | api/src/verify.rs:58-92 | for given key, commitments, input and output at most one scalar encoding is accepted |
| VrfLife.CallbacksCarryVrf | program/src/provide_randomness.rs:140-180 | with the program's verifier and the key of secret x: in every run every callback carries the hash of x times the point its id hashes to, unless the number hashed from its transcript is the one challenge a wrong output can answer |
| VrfLife.ProvideExactly | program/src/provide_randomness.rs:110-212 | exactly which fulfilments of a live request pass all checks, with identity and program checks written out, and the error of each that does not |
| VrfLife.UnknownIdRefused | program/src/provide_randomness.rs:114-117 | an id no live request has is refused |
| LifeEffects.IdentityExactly | program/src/provide_randomness.rs:185-212 | the identity check passes if and only if the identity is the one that must sign and, unscoped, every program passed is allowed; otherwise which error |
| VrfLife.LiveIdsDiffer | program/src/request_randomness.rs:128-147 | in a run without a collision live requests have different ids |
| VrfLife.FulfilsExactly | program/src/provide_randomness.rs:110-222 | in every run without a collision a live request is taken off and called back if and only if the slot is later, the proof verifies, the accounts are the requested ones and the oracle is not among them; the queue then pays 800000 or 500000 lamports by priority |
| VrfLife.HonestOracleFulfils | vrf/src/vrf.rs:47-101 | in every such run the computed proof fulfils any live request of an earlier slot whose id hashes to a point, and its callback carries the VRF output |
| OracleClients.OracleClient.Accept | vrf-oracle/src/oracle/processor.rs:162-177 | drops older views and snapshots not strictly newer, else records the slot; like every method of the class it extends the trace by one step and leaves, unless a view showed again what an earlier one dropped, every published request in flight and no request with two tasks sending |
| OracleClients.OracleClient.DiffView | vrf-oracle/src/oracle/processor.rs:192-260 | the loop over tracked ids aborts exactly the published tasks of requests of earlier slots that the view does not show, whatever their phase, and forgets exactly those requests |
| OracleClients.OracleClient.SpawnNext | vrf-oracle/src/oracle/processor.rs:267-293 | ends, skips a tracked item, or reserves the item with its slot and spawns a waiting task; nothing else changes |
| OracleClients.OracleClient.PublishTask | vrf-oracle/src/oracle/processor.rs:476-482 | publishes the handle while the reservation is locked, and keeps what the class promises |
| OracleClients.OracleClient.StartTask | vrf-oracle/src/oracle/processor.rs:482 | the published task enters its send loop, nothing else changes, and what the class promises is kept |
| OracleClients.OracleClient.LeaveLoop | vrf-oracle/src/oracle/processor.rs:456-459 | a task, aborted or not, leaves its send loop, and what the class promises is kept |
| OracleClients.OracleClient.StopTask | vrf-oracle/src/oracle/processor.rs:236-238 | an aborted task is dropped where it yields, nothing else changes, and what the class promises is kept |
| OracleClients.OracleClient.LeaveHandles | vrf-oracle/src/oracle/processor.rs:460-465 | first cleanup region, of an aborted task too: deletes by id and keeps what the class promises |
| OracleClients.OracleClient.LeaveInflight | vrf-oracle/src/oracle/processor.rs:467-473 | second cleanup region, of an aborted task too: deletes by id and leaves no published task of that id behind |
| OracleSafety.MissingIsGone | vrf-oracle/src/oracle/processor.rs:224-234 | a request missing from a state of a later slot than its enqueue slot has been removed |
| OracleSafety.AbortsOnlyRemoved | vrf-oracle/src/oracle/processor.rs:220-260 | in every run whose accepted views are genuine, in any order, a task is aborted only if its request was removed by the view's slot and never returns |
| OracleSafety.AbortsExactly | vrf-oracle/src/oracle/processor.rs:220-260 | in every run the diff aborts a task if and only if it is the published task of a tracked request of an earlier slot that the view does not show, in whatever phase; it forgets exactly those requests; no other step aborts anything |
| OracleSafety.StaleViewsIgnored | vrf-oracle/src/oracle/processor.rs:162-177 | in every run, once a view was accepted, no later view of an older slot and no later snapshot that is not strictly newer changes anything |
| OracleSafety.AcceptsExactly | vrf-oracle/src/oracle/processor.rs:162-177 | after any run an idle oracle turns a view away if and only if some accepted view was of a later slot, or of the same slot and the view is a snapshot |
| OracleSafety.OneTaskPerRequest | vrf-oracle/src/oracle/processor.rs:280-293 | over all interleavings, with aborts that take effect late or never, as long as no accepted view shows again what an earlier one dropped: no two tasks of a request are in the send loop and every published task's request is in flight |
| OracleExact.OneTaskExactly | vrf-oracle/src/oracle/processor.rs:159-293 | for any states in which requests keep their slot and any list of views of them that the staleness check lets through: one task per request in every interleaving if and only if no view shows again what an earlier one dropped |
| OracleExact.ResurrectionBreaks | vrf-oracle/src/oracle/processor.rs:159-293 | for every such list of views that shows again what was dropped, an interleaving with two tasks sending for one request |
| OracleOrder.OrderedNeverResurrect | vrf-oracle/src/oracle/processor.rs:159-161 | genuine views in chain order never show again what was dropped |
| OracleOrder.StreamIsOrdered | vrf-oracle/src/oracle/client.rs:431-445 | notifications in stream order, and none accepted in the slot of an accepted snapshot, put the accepted views in chain order |
| OracleOrder.StreamedViewsSafe | vrf-oracle/src/oracle/processor.rs:159-293 | under that condition, which a client can check, one task per request over all interleavings |
| OracleOrder.LaggingNotificationsDuplicateTasks | vrf-oracle/src/oracle/processor.rs:159-177 | a run with notifications in stream order in which a snapshot overtakes two notifications of its slot and two tasks, neither aborted, end up sending for one request |
| ChainHistory.ProgramGivesGenuineHistory | program/src/provide_randomness.rs:130-135 | short of a hash collision, in every run of the program the queue's states are a history as the oracle's guarantees need it |

## Left out

- Curve, SHA and HKDF internals: given by laws or as parameters; no pseudorandomness claim.
- Signer, owner, writable and PDA checks, Borsh decoding of instruction data, tag dispatch, the admin check and key validation when an oracle is added: foreign code.
- Rent, cross-program invocation and the delegation program: a queue's balance after initialisation is a parameter, a delegated queue is not followed into the rollup.
- The alignment check in `load`: account data is aligned by the runtime.
- RPC, websocket and gRPC sources, HTTP statistics, CLI, slot timing, blockhash and fee caches: plumbing.
- The send loop's retries and backoff: a task is waiting, sending, leaving or done.
- `fetch_and_process_program_accounts` and views without a slot: both call sites pass one.
- A view that does not load as a queue: genuine queue states do.
- Several queues in one oracle client: the maps are per queue, and the locks that span queues only exclude more.
- QueueAccounts.QueueAccount.AddItemWithId: requires a cursor of at least 16 and a buffer below 4 GiB; both hold of every reachable queue (`SoundRun`). Loading repairs only a cursor of 0, and with one of 1 to 15 in foreign bytes the item would overlap the header, which the model keeps apart.
- Program.OracleQueue.ProcessRequest: requires the same, and that queue and payer lamports together fit in 64 bits; the state after an error is left open because the transaction is rolled back.
- Program.OracleQueue.ProcessProvide: the state after an error is left open because the transaction is rolled back.
- Program.OracleQueue.ProcessPurge: the state after an error is left open because the transaction is rolled back.
- IdsNeverRepeat: assumes `NoCollision` of the run's preimages; `PreimagesNeverRepeat` needs no such assumption.
- AtMostOneCallback: assumes `NoCollision`, since ids are hashes.
- ProgramGivesGenuineHistory: assumes `NoCollision`, since the oracle tracks requests by id.
- FulfilsExactly: assumes `NoCollision`, since a lookup by id takes the first match.
- HonestOracleFulfils: assumes `NoCollision` likewise.
- VerifiersAgree: assumes a canonical scalar, which the host's scalar type guarantees; `ChainVerifyIs` covers the encodings that are not.
- OneTaskPerRequest: assumes that no accepted view shows again what an earlier one dropped; `OneTaskExactly` shows that the condition is exact.
