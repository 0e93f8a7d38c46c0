# Torrentia in Dafny

Torrentia is a swarm for the weights of AI models. A creator cuts a model file into chunks and lists their hashes in a
manifest that an upload broker pins; seeders announce the chunks they hold to a tracker behind a WebSocket hub; a browser
downloads chunks from other peers over data channels, or buys them from seeder nodes over HTTP; an indexer adds up what the
payment contract emits. This project models the stateful cores of those services and proves what they guarantee over whole
runs: any number of peers, connections, replicas and requests, in any interleaving.

What is proved, hardest first:

- **Tracker.** Redis keeps presence in four kinds of key, each with its own expiry, and an index from peers to models. On
  every run in which peers beat in time, keep one address between removals and have chunk keys of their own, it answers
  every query as the in-memory map does (`PresenceRuns.QueriesAgree`). Each condition is needed: three short runs show what
  goes wrong otherwise. On every run whatever, a listing inside its minute is in its peer's index, a removal leaves behind
  only listings whose minute ran out in that very second (scores are whole seconds, expiries are not), and who is listed,
  with which address and chunks, follows from the announcements and how late the renewals came. With calls that overlap the
  index stays complete exactly when each write comes in time, and so it does if the calls of one peer do not overlap.
- **Chunks.** Whatever bytes peers send, however often a download is cancelled and resumed, a download that completes
  returns exactly the file the manifest was made from, and it does complete if one candidate for each missing chunk
  delivers; what the store holds is never asked for again.
  What `streamChunk` sends is what the receiver hands over; it settles the download's wait well exactly when no error, failed
  payment or timeout comes before it is stored, and what arrived too late for its wait is stored all the same. How full the
  channel's buffer can get is known exactly.
- **Hub.** In every interleaving of connecting, registering, being replaced, announcing and leaving, each seat and each
  listing belongs to a connection that has yet to report its departure, a listing says what was announced, and nothing is
  left when all are gone.
- **Payments and nonces.** A payment releases one chunk in 24 hours over any number of replicas, and what is released is
  paid for: the log the contract writes is read back as the total it encodes. Only the manifest whose hash was signed is
  pinned. An upload intent is pinned at most once, exactly when its deadline falls before its nonce expires; a signature,
  exactly when moreover no other nonce the broker admits is signed as the same 256-bit word. The in-memory stores with their
  cleaners answer as SET NX with expiry does, exactly when no sweep runs ahead of a later request's clock.
- **Indexer.** Incremental totals equal their recomputation from the event log, always or exactly when a condition on the
  log holds.
- **Bounds.** Both rate limiters admit exactly what every window allows; the seeder's store keeps its quota on every run
  exactly when the quota is at most 2^63; the two manifest validators agree exactly on canonical manifests; splitting
  payments one by one costs the creator less than a wei each.

## How the model is built

Each module follows one component. An object that updates its fields is a class; its methods are proved against functions
on values (`Announced`, `AnnouncedIn`, `After`, `AfterPut`, ...), and the run theorems are about sequences of those.

- Time is nanoseconds on one clock that never goes back; a Redis key lives while the clock is before its expiry; Redis
  scores are whole seconds.
- A section under a mutex, a Redis pipeline and a Redis command are one step each. A heartbeat or removal in Redis, which
  reads the index and then writes, is two steps in `PresenceSteps` and one elsewhere.
- SHA-256, the signer recovered from a signature, JSON decoding, what the RPC endpoint replies, how peers behave, how the
  channel drains and how the disk fails are parameters. Where a theorem needs two contents never to share a digest, it
  says so (`CollisionFree`).
- Machine widths are explicit: chunk indices and broker sizes have 32 bits, the sums of both validators and of the
  seeder's usage wrap around at 2^64. Token counts are reals. Case folding and trimming are those of ASCII.

## Model

| member | source | states |
|---|---|---|
| Tracker.Tracker.Announce | signaling/internal/tracker/tracker.go:38-55 | replaces the peer's entry for the model and touches no other |
| Tracker.Tracker.Query | signaling/internal/tracker/tracker.go:58-79 | lists each peer of the model once, with its address and chunks, and nobody else |
| Tracker.Tracker.Heartbeat | signaling/internal/tracker/tracker.go:82-92 | moves the last beat of exactly this peer's entries, in every model |
| Tracker.Tracker.RemovePeer | signaling/internal/tracker/tracker.go:95-105 | removes exactly this peer's entries and the models that leaves empty |
| Tracker.Tracker.EvictStale | signaling/internal/tracker/tracker.go:109-129 | removes exactly the entries older than the timeout; the count returned is the drop in the registration total |
| Tracker.Tracker.Stats | signaling/internal/tracker/tracker.go:149-164 | distinct peers and registrations of the map as it is |
| Tracker.RunKeepsNoEmptyInner | signaling/internal/tracker/tracker.go:38-129 | no run of operations leaves a model with an empty peer map |
| Tracker.NothingOlderThanLastTick | signaling/internal/tracker/tracker.go:109-146 | on every run, nothing is older than the timeout at the last tick |
| Tracker.EntriesNeverOlderThanTimeoutPlusInterval | signaling/internal/tracker/tracker.go:132-146 | if the last tick is at most the interval ago, no listed entry is older than timeout plus interval |
| Tracker.PunctualPeerStays | signaling/internal/tracker/tracker.go:82-129 | a peer whose beats are at most the timeout apart is never evicted, whatever the others do |
| RedisTracker.RedisTracker.Announce | signaling/internal/tracker/redis_tracker.go:65-113 | the whole keyspace after the pipeline: metadata, score, index and chunk key, with their expiries |
| RedisTracker.RedisTracker.Query | signaling/internal/tracker/redis_tracker.go:128-187 | each peer scored in the last 60 s once, with the address and chunks still alive |
| RedisTracker.ReportedExactly | signaling/internal/tracker/redis_tracker.go:162-186 | so a query's answer has one entry for each such peer, with its address and chunks |
| RedisTracker.RedisTracker.Beat | signaling/internal/tracker/redis_tracker.go:208-223 | the second half: what the pipeline writes for the models read before, also if the index has changed meanwhile |
| RedisTracker.RedisTracker.Purge | signaling/internal/tracker/redis_tracker.go:238-252 | the same of a removal |
| RedisTracker.RedisTracker.Heartbeat | signaling/internal/tracker/redis_tracker.go:197-224 | every model of the live index is rescored, and what is still alive is extended |
| RedisTracker.RedisTracker.RemovePeer | signaling/internal/tracker/redis_tracker.go:234-253 | every indexed model is unlisted, and metadata, index and chunk keys are gone |
| PresenceRuns.UnexpiredListingIsIndexed | signaling/internal/tracker/redis_tracker.go:79-106 | on every run, a listing inside its 60 s is in its peer's live index, beside live metadata |
| PresenceRuns.RemovalPurgesExactlyTheIndexed | signaling/internal/tracker/redis_tracker.go:234-253 | on every run, what a removal leaves for a query is exactly the unindexed listings, all scored 60 s ago |
| PresenceRuns.RemovalCanMissOneSecond | signaling/internal/tracker/redis_tracker.go:128-139 | a run on which such a listing survives, with a blank address |
| PresenceRuns.BlankAddressExactlyWhenExpired | signaling/internal/tracker/redis_tracker.go:128-187 | a blank address is shown exactly for expired metadata, and only in that one second |
| PresenceRuns.QueriesAgree | signaling/internal/tracker/redis_tracker.go:65-253 | on every run with beats in time, one address for each peer between removals and a chunk key for each listed pair, both trackers answer every query with the same peers, addresses and chunk sets |
| PresenceRuns.PlainQueriesAgree | signaling/internal/tracker/redis_tracker.go:96 | model IDs without ':' are enough for the keys to be apart, and so are peer IDs without it |
| PresenceRuns.SharedKeyDisagrees | signaling/internal/tracker/redis_tracker.go:96-97 | a run that shows the keys must be apart: another pair's announcement takes the chunks away |
| PresenceLeases.ChunksAreShownExactlyWhileRenewed | signaling/internal/tracker/redis_tracker.go:95-106 | on every run, however late the beats, a query shows the chunks announced last for the pair while each renewal came within 60 s of the one before, and none otherwise |
| PresenceLeases.AnswerIsDecidedByTheRun | signaling/internal/tracker/redis_tracker.go:128-187 | on every run, a query lists a peer exactly when the listing was last renewed in the last 60 s, with the address it announced last for any model while its metadata lasts, and the leased chunks |
| PresenceSteps.AlwaysIndexedExactlyWhenWritesInTime | signaling/internal/tracker/redis_tracker.go:197-253 | in every interleaving of the reads and writes of heartbeats and removals, a listing inside its 60 s stays in the live index throughout exactly when each heartbeat still finds there what it read, or writes a minute late, and each removal has read all unexpired listings |
| PresenceSteps.OneAtATimeStaysIndexed | signaling/internal/tracker/redis_tracker.go:197-253 | enough for that: calls of one peer do not overlap and its index does not run out between the halves of a heartbeat |
| PresenceSteps.RemovalInsideHeartbeatLosesIndex | signaling/internal/tracker/redis_tracker.go:203-222 | a run that shows the need: a removal between the halves of a heartbeat |
| PresenceSteps.UnbrokenCallIsWhole | signaling/internal/tracker/redis_tracker.go:197-253 | a call whose halves have nothing between them is the whole operation of the other run theorems |
| PresenceRuns.LateHeartbeatRelistsWithoutChunks | signaling/internal/tracker/redis_tracker.go:197-224 | a run that shows the beats must be in time: a late one lists a model again without its chunks |
| PresenceRuns.TwoAddressesDisagree | signaling/internal/tracker/redis_tracker.go:78-80 | a run that shows a peer must keep one address: Redis holds one for all its models |
| PresenceRuns.AnswersReportView | signaling/internal/tracker/tracker.go:58-79 | what the in-memory query returns is the view the comparison is about |
| Chunker.BufferToHex | frontend/src/services/chunker.ts:14-21 | two lower-case digits a byte after "0x" |
| Chunker.ChunkFile | frontend/src/services/chunker.ts:27-51 | ceil(size / chunkSize) chunks, numbered in order, none empty, together the file, each with its hash |
| ChunkStore.ChunkStore.StoreChunk | frontend/src/services/chunk-store.ts:44-71 | puts one record under the key of model, wallet and index |
| ChunkStore.KeyOfIsInjective | frontend/src/services/chunk-store.ts:51-52 | the key of a record determines its model, wallet and index when neither of the two names has a ':' |
| ChunkStore.ChunkStore.GetChunk | frontend/src/services/chunk-store.ts:76-108 | the record under the wallet's own key, else some wallet's copy of the chunk; nothing exactly when there is neither |
| ChunkStore.ReadsAreCopies | frontend/src/services/chunk-store.ts:51-52 | with names free of ':' what is read is a copy of the chunk asked for, found exactly when some wallet has one |
| ChunkStore.ColonsMixKeys | frontend/src/services/chunk-store.ts:51-52 | the condition is needed: two records of different models under one key |
| ChunkStore.WalletsAreApart | frontend/src/services/chunk-store.ts:51 | wallets share records exactly when their addresses differ in case only |
| ChunkStore.HeldExactly | frontend/src/services/chunk-store.ts:113-143 | an index is held exactly when the wallet has a record of it, or has none of the model and some wallet has one |
| ChunkStore.ChunkStore.GetHeldChunks | frontend/src/services/chunk-store.ts:113-143 | the wallet's own indices if it has any, else those of all wallets |
| ChunkStore.ChunkStore.GetAllChunks | frontend/src/services/chunk-store.ts:149-165 | what GetChunk gives for every index in order exactly when all are found, else the first one missing |
| ChunkStore.ChunkStore.DeleteModel | frontend/src/services/chunk-store.ts:170-189 | removes the wallet's records of the model and no others |
| Downloader.Downloader.GetCandidateSeedersForChunk | frontend/src/services/downloader.ts:260-285 | asks exactly the holders other than oneself, if there are any, each as often as it is listed, and the creator last |
| Downloader.PoolIsTheOthers | frontend/src/services/downloader.ts:261-268 | a chunk is asked of everybody else who has it and never of oneself, unless nobody else has it |
| Downloader.CreatorLast | frontend/src/services/downloader.ts:270-284 | a permutation of the pool with the creator's seeders at the end; with no creator known, the seeders of the zero address once more |
| Downloader.Downloader.DownloadChunk | frontend/src/services/downloader.ts:332-450 | true exactly when the first event that settles the wait is a verified arrival being stored; what arrived and was not stored yet is stored later, whichever wait is on |
| Downloader.Downloader.LateArrivalIsStored | frontend/src/services/downloader.ts:405-431 | an arrival whose wait was broken off is available once it is through, if it was right |
| Downloader.Downloader.FetchChunk | frontend/src/services/downloader.ts:207-223 | asks the candidates in turn until one delivers, and nobody after that; one that delivers is enough |
| Downloader.Downloader.FetchOne | frontend/src/services/downloader.ts:197-232 | one chunk of the loop: stored, or the download stops with the reason; nothing else is asked for |
| Downloader.Downloader.FetchMissing | frontend/src/services/downloader.ts:187-238 | once through, every chunk of the manifest is available; what was held is neither asked for nor needed from anybody, and no failure names it |
| Downloader.Downloader.Reassemble | frontend/src/services/downloader.ts:452-467 | a completed reassembly is the verified chunks in order; it fails only if a chunk is gone |
| Downloader.Downloader.Start | frontend/src/services/downloader.ts:145-252 | a completed download is a verified file whatever peers sent; it never misses a chunk at the end; what the store held is not asked for again; it completes if the swarm delivers the rest, and without any peer if nothing is missing |
| Downloader.Downloader.Cancel | frontend/src/services/downloader.ts:469-474 | stops and unlocks the download, store untouched |
| Downloader.FullStoreHasAll | frontend/src/services/downloader.ts:152-162 | as many held indices as chunks means every chunk is there |
| Downloader.FullSetHasAll | frontend/src/services/downloader.ts:159 | the counting behind it: n different indices below n are all of them |
| Pipeline.VerifiedChunkIsOriginal | frontend/src/services/downloader.ts:411-422 | against a file's manifest a chunk passes the hash check exactly when it is the file's own |
| Pipeline.CompletedDownloadIsTheFile | frontend/src/services/downloader.ts:452-467 | what a completed download returns is exactly the file the manifest was made from |
| Pipeline.DownloadFile | frontend/src/services/downloader.ts:145-252 | a download against a file's manifest that completes returns the file, and it completes if the swarm delivers what was not held |
| Pipeline.HashAndStore | frontend/src/pages/Upload.tsx:151-166 | the creator's loop stores every chunk and lists it with hash and size, or stops where it is cancelled with the chunks until then stored |
| Pipeline.SeederDeliversExactlyWhenUndisturbed | frontend/src/services/downloader.ts:337-449 | a verified chunk streamed over a channel, with any texts between its frames, settles the downloader's wait well exactly when no error text, failed payment or timeout comes before it is stored, between its last slice and then included |
| Pipeline.HonestCandidatesAreEnough | frontend/src/services/downloader.ts:187-238 | one candidate for each missing chunk that streams it undisturbed is all a download needs |
| Pipeline.LastSliceDelivers | frontend/src/services/peer-connection.ts:196-245 | before its last slice a streamed chunk delivers nothing, and its last slice delivers it whole |
| PeerConnection.Receiver.OnMessage | frontend/src/services/peer-connection.ts:196-216 | the reassembly state and deliveries after each frame; control messages change neither |
| PeerConnection.Receiver.HandleBinaryData | frontend/src/services/peer-connection.ts:218-245 | a slice completes the chunk exactly when the announced size is reached |
| PeerConnection.DeliveredExactlyWhenComplete | frontend/src/services/peer-connection.ts:218-245 | a chunk is delivered exactly by the slice that makes the bytes received as many as announced, and has exactly those |
| PeerConnection.CopyInto | frontend/src/services/peer-connection.ts:228-234 | slices copied into a buffer give their concatenation, or a range error when they are too long |
| PeerConnection.DataChannel.StreamChunk | frontend/src/services/peer-connection.ts:305-339 | sends the metadata frame and all slices in order, or as many as the channel lives for |
| PeerConnection.DataChannel.StreamSlices | frontend/src/services/peer-connection.ts:321-338 | the slicing loop, with the wait for a low buffer before each send |
| PeerConnection.SlicesCounted | frontend/src/services/peer-connection.ts:310-318 | the announced number of slices, ceil(size / 16 KB), is the number sent |
| ChannelRuns.ControlIsIgnored | frontend/src/services/peer-connection.ts:196-216 | control messages anywhere change no delivery and no state |
| ChannelRuns.ChunkArrives | frontend/src/services/peer-connection.ts:196-245 | one streamed chunk is delivered whole from any left-over state, exactly unless it is empty |
| ChannelRuns.StreamedChunksAreDelivered | frontend/src/services/peer-connection.ts:196-245 | any sequence of streamed chunks is delivered in order and byte for byte, exactly the empty ones lost |
| ChannelRuns.BufferStaysBounded | frontend/src/services/peer-connection.ts:341-354 | however the channel drains and whatever the chunks, at most 1 MB + 16 KB right after a slice, and at any time no more than that and the metadata sent since |
| ChannelRuns.OneMetadataFrameAtMost | frontend/src/services/peer-connection.ts:311-319 | over non-empty chunks that is one metadata frame |
| ChannelRuns.BoundHoldsUnderEveryDrainingExactlyWhen | frontend/src/services/peer-connection.ts:321-354 | any bound holds under every draining exactly when the worst case, computed from the sizes sent, keeps it |
| ChannelRuns.WorstIsReached | frontend/src/services/peer-connection.ts:321-354 | some draining reaches the worst case at any point of the run |
| ChannelRuns.EmptyChunksPileUp | frontend/src/services/peer-connection.ts:311-319 | the bound is tight: a long chunk and r empty ones after it fill the buffer to 1 MB + 16 KB and r metadata frames |
| Hub.Hub.Seat | signaling/internal/ws/hub.go:266-274 | puts the connection under its ID and closes another one that stood there |
| Hub.Hub.ServeWS | signaling/internal/ws/hub.go:424-447 | a connection with a session token is seated before its first message |
| Hub.Hub.RegisterStart | signaling/internal/ws/hub.go:247-263 | refuses a blank or different ID; a registered connection's listings go first |
| Hub.Hub.Enroll | signaling/internal/ws/hub.go:264-275 | the second half of a registration: ID, wallet and seat |
| Hub.Hub.Register | signaling/internal/ws/hub.go:247-284 | both halves together |
| Hub.Hub.Announce | signaling/internal/ws/hub.go:294-327 | lists the peer under the wallet bound to the connection; nothing for an unregistered one or an oversized list |
| Hub.Hub.Heartbeat | signaling/internal/ws/hub.go:286-292 | refreshes the peer's listings, if it is registered |
| Hub.Hub.UnregisterStart | signaling/internal/ws/hub.go:177-189 | gives up the seat only if it is still this connection's |
| Hub.Hub.UnregisterEnd | signaling/internal/ws/hub.go:190 | removes every listing under the connection's ID |
| Hub.Peer.Close | signaling/internal/ws/peer.go:97-106 | one step of the peer's outgoing queue: closed, and closed once more only if it was open |
| Hub.Peer.Send | signaling/internal/ws/peer.go:79-94 | queues the message exactly when the peer is open and the buffer has room |
| HubRuns.QueueIsClosedOnce | signaling/internal/ws/peer.go:97-106 | however often a peer is closed by hub and read loop, its queue is closed once, and it never outgrows its 256 messages |
| HubRuns.QueuedExactlyWhenOpenWithRoom | signaling/internal/ws/peer.go:79-94 | over any run a message is queued exactly when no close came before and there is room |
| HubRuns.MessagesLeaveInOrder | signaling/internal/ws/peer.go:79-94 | what the write loop took and what is left is everything queued, in order |
| HubRuns.SeatsAndListingsAreBacked | signaling/internal/ws/hub.go:177-327 | in every interleaving a seat's connection has that ID and has not left, and every listing's ID belongs to a connection yet to report its departure |
| HubRuns.IdNeverChanges | signaling/internal/ws/hub.go:247-284 | an ID once set is kept on every continuation |
| HubRuns.NothingLeftWhenAllGone | signaling/internal/ws/peer.go:109-113 | when every connection is gone, peer map and tracker are empty |
| HubRuns.ListedExactlySinceAnnounced | signaling/internal/ws/hub.go:177-327 | over any run a peer is listed exactly when an accepted announcement listed it and no departure or re-registration under its ID, and no eviction, came since |
| HubRuns.ListingSaysWhatWasAnnounced | signaling/internal/ws/hub.go:286-327 | over any run a listing has the chunks of the announcement that made it, the wallet bound to the connection or else the announced one, and the time of the announcement or of the last heartbeat under that ID since |
| HubRuns.SessionIsListed | signaling/internal/ws/hub.go:177-327 | a connection that registers, announces and beats is seated and listed as it said |
| HubRuns.DepartureIsComplete | signaling/internal/ws/hub.go:177-191 | a departure takes the connection's seat and the listings of its ID, and nothing else |
| HubRuns.WalletStaysBound | signaling/internal/ws/hub.go:308-317 | a wallet once bound to a connection is kept until it registers again |
| HubRuns.ReplacedConnectionUnlistsItsSuccessor | signaling/internal/ws/hub.go:177-191 | from every state with a seated connection: one that replaces it, announces and stays is unlisted by the old one's departure |
| Claims.TakenExactlyWhileHeld | signaling/internal/broker/store.go:78-129 | a key is refused exactly while an earlier grant holds it, whatever sweeps came between |
| Claims.GrantsAreSpaced | signaling/internal/broker/store.go:78-103 | two grants of one key are at least the first one's lifetime apart |
| Claims.SameAnswersAsSetNX | signaling/internal/broker/store.go:35-129 | in whatever order requests read the clock, each is answered as by SET NX with expiry if no sweep ran ahead of it |
| Claims.SameAnswersExactlyWhen | signaling/internal/broker/store.go:85-129 | that is exact to the nanosecond |
| Claims.SweepAheadGrantsTwice | signaling/internal/broker/store.go:86-88 | the run that shows it: a sweep between a request's clock and its lock |
| Claims.RefusalLeavesNoTrace | signaling/internal/seeder/verifier.go:84-93 | after a refused request the store is as if it had never been made, whatever follows |
| Payments.ReplayStore.Claim | signaling/internal/seeder/verifier.go:84-93 | grants a key exactly when it is free and then holds it for its lifetime |
| Payments.PaymentVerifier.ScanLogs | signaling/internal/seeder/verifier.go:184-230 | the scan succeeds exactly when the first payment log of the contract names model and seeder and pays the price |
| PaymentLogs.ReceiptPaysExactlyWhen | signaling/internal/seeder/verifier.go:184-230 | a receipt whose first event of the contract encodes model, seeder and the three amounts pays exactly when it succeeded, model and seeder are those asked for, and the total is at least the price |
| PaymentLogs.VisitIsPaidExactlyWhen | signaling/internal/seeder/http_server.go:85-118 | a visit for a held chunk with such a transaction is paid for exactly when model and seeder are this one's and the total is at least the price |
| PaymentLogs.TotalIsRead | signaling/internal/seeder/verifier.go:215-221 | of the three words written into a log, the total is what is read |
| PaymentLogs.NothingPaidWithoutEvent | signaling/internal/seeder/verifier.go:189-200 | a receipt without such an event pays for nothing |
| PaymentLogs.DecodesWhatIsPrinted | signaling/internal/seeder/verifier.go:216-219 | hexadecimal digits in any case decode to the bytes they print |
| Payments.PaymentVerifier.VerifyChunkPayment | signaling/internal/seeder/verifier.go:127-245 | accepted exactly with a paying receipt and a free claim; only then is the store touched |
| Payments.HTTPServer.HandleChunk | signaling/internal/seeder/http_server.go:85-151 | a chunk is released exactly to a GET for a held chunk with an unredeemed payment for it; the 402 challenge, with the price, seeder, contract and chain, exactly without a payment; which request gets which refusal |
| Text.CleanAgain | signaling/internal/seeder/verifier.go:104-106 | cleaning the key again in the Redis store changes nothing |
| PaymentRuns.AcceptedExactlyWhenUnredeemed | signaling/internal/seeder/verifier.go:127-245 | over any number of replicas, accepted exactly when valid and not redeemed in the 24 hours before |
| PaymentRuns.RedemptionsAreADayApart | signaling/internal/seeder/verifier.go:234-242 | two accepted visits with one transaction, however spelled, are at least 24 hours apart |
| PaymentRuns.RefusedVisitChangesNoAnswer | signaling/internal/seeder/verifier.go:234-242 | a visit that is turned down changes no later answer |
| PaymentRuns.ReleasesArePaidFor | signaling/internal/seeder/http_server.go:106-150 | in any 24 hours, price times the releases of a model, each counted, however requests spell it, is at most what distinct successful transactions for this model and seeder paid |
| Broker.MemoryNonceStore.ConsumeNonce | signaling/internal/broker/store.go:78-103 | grants creator and nonce exactly when given and free; the store afterwards is that of a claim |
| Broker.MemoryNonceStore.CleanExpired | signaling/internal/broker/store.go:119-129 | exactly the entries past their expiry go |
| Broker.NonceKeysAreDistinct | signaling/internal/broker/store.go:85 | two nonces share a key exactly when creator and nonce agree up to case and space, for creators without ':' |
| Broker.ColonInCreatorMixesKeys | signaling/internal/broker/store.go:85 | the condition is needed |
| Broker.VerifyUploadIntent | signaling/internal/broker/auth.go:127-161 | accepted exactly in time and signed by the declared creator; expired exactly after the deadline's second |
| Broker.Server.HandleUploadManifest | signaling/internal/broker/server.go:136-237 | pinned exactly when authorized, the nonce free, the manifest valid and pinning works; an authorized request spends its nonce either way; every pin so far is valid and signed |
| Broker.WrongSignerReadsAsExpired | signaling/internal/broker/server.go:170-173 | which other refusals are answered as an expired intent |
| Broker.GoodPinIsSigned | signaling/internal/broker/server.go:166-214 | what is pinned has the hash, the size and the signer of its intent |
| BrokerRuns.FirstUploadIsPinnedExactlyWhen | signaling/internal/broker/server.go:136-237 | the first upload a broker sees is pinned exactly when it is within the cap, signed in time by its creator, valid, and taken by the pinning service |
| BrokerRuns.NonceIsPinnedAtMostOnce | signaling/internal/broker/server.go:166-214 | on every run, of all intents of one creator with one nonce none is pinned after another one, if its deadline falls before the nonce entry expires |
| BrokerRuns.OneManifestIsPinnedForOneHash | signaling/internal/broker/server.go:185-214 | on every run what is pinned under one signed manifest hash is one manifest, byte for byte |
| BrokerRuns.IntentIsPinnedAtMostOnce | signaling/internal/broker/server.go:166-214 | so an intent whose deadline falls before its nonce entry expires is pinned at most once |
| BrokerRuns.SignatureIsPinnedAtMostOnce | signaling/internal/broker/auth.go:98-124 | and so is one signature over one digest, when nonces are 256-bit words |
| BrokerRuns.SignatureCanBePinnedAgainExactlyWhen | signaling/internal/broker/auth.go:64-115 | for any set of nonces a broker admits: the signature of a pinned upload can be pinned again on some run exactly when its nonce entry can expire in time, or another admitted nonce is signed as the same word |
| BrokerRuns.ProperNoncesPinSignatureOnceExactlyWhen | signaling/internal/broker/auth.go:98-124 | so with 256-bit nonces it is a question of deadline and lifetime alone |
| BrokerRuns.SignatureNeedsNonceRange | signaling/internal/broker/auth.go:64-79 | and as the code admits every nonce, no deadline or lifetime is enough |
| BrokerRuns.NonceIsItsValue | signaling/internal/broker/server.go:169-172 | the text in the nonce key and the number determine each other, whatever the sign |
| BrokerRuns.ProperNonceIsItsWord | signaling/internal/broker/auth.go:103-115 | for such nonces the signed word and the text in the nonce key determine each other |
| BrokerRuns.IntentCanBePinnedAgainExactlyWhen | signaling/internal/broker/auth.go:132-134 | a pinned intent can be pinned again on some run exactly when its deadline, plus the time from check to nonce, is after that expiry |
| BrokerRuns.DefaultIntentIsPinnedOnce | signaling/internal/broker/config.go:53-60 | with the default hour and 24 hours, at most once |
| BrokerRuns.ConsumedExactlyWhenUnused | signaling/internal/broker/store.go:78-103 | on every run an authorized upload passes the nonce gate exactly when its signer has not used the nonce within the lifetime |
| Manifest.ValidateForBroker | signaling/internal/broker/validator.go:36-97 | accepted exactly when the declarative conditions against the intent hold; which of them is reported: size, hash, model, count, the first faulty entry |
| Manifest.AcceptedBytesWereSigned | signaling/internal/broker/validator.go:44-51 | only the bytes whose hash was signed are accepted, in whatever spelling |
| Manifest.OneManifestForOneHash | signaling/internal/broker/validator.go:44-51 | two manifests accepted under one signed hash are the same bytes |
| Manifest.AcceptedManifestNamesTheModel | signaling/internal/broker/validator.go:53-60 | no manifest that names another model is accepted |
| Manifest.SumBrokerEntries | signaling/internal/broker/validator.go:71-85 | the 64-bit running sum is the true sum of the sizes |
| Manifest.SumCannotWrap | signaling/internal/broker/validator.go:71-85 | fewer than 2^32 sizes of 32 bits stay within 64 bits |
| Manifest.AcceptedManifestTiles | signaling/internal/broker/validator.go:62-94 | an accepted manifest covers every byte of the signed size once and no other |
| Manifest.ReportedByBroker | signaling/internal/broker/validator.go:71-85 | the entry reported has the fault reported, and all before it are sound |
| Manifest.SeederSoundExactly | signaling/internal/seeder/manifest.go:46-67 | what the seeder asks of the entries, declaratively |
| Manifest.ReportedBySeeder | signaling/internal/seeder/manifest.go:46-67 | the entry reported has the fault reported, and all before it are sound |
| Manifest.ValidateForSeeder | signaling/internal/seeder/manifest.go:38-74 | accepted exactly when entries are sound and the 64-bit sum is the total; a faulty entry reported is the first |
| Manifest.SumSeederEntries | signaling/internal/seeder/manifest.go:46-67 | the loop's sum, wrapped around |
| Manifest.SeederManifestTilesExactlyWhen | signaling/internal/seeder/manifest.go:46-71 | a manifest the seeder accepts covers its total size exactly when the sizes stay within 64 bits |
| Manifest.SeederSumCanWrap | signaling/internal/seeder/manifest.go:46-71 | an accepted manifest that covers nothing of its total size: two chunks of 2^63 and a total of 0 |
| Manifest.HashPassesBothExactlyWhen | signaling/internal/seeder/manifest.go:51-59 | a hash the broker takes is one the seeder takes exactly without surrounding space and upper-case "0X" |
| Manifest.SeederTakesBrokersManifestExactlyWhen | signaling/internal/seeder/manifest.go:38-74 | what the broker accepted the seeder accepts exactly with a total size stated and canonical hashes |
| Manifest.UploadPassesBoth | frontend/src/pages/Upload.tsx:196-215 | the manifest and intent built for any non-empty file pass both validators within the JSON cap |
| Limiter.AttemptLog.Compact | signaling/internal/ws/limiter.go:41-47 | compacts in place to exactly the times after the cutoff, in order |
| Limiter.AttemptLog.Attempt | signaling/internal/ws/limiter.go:38-55 | logs the attempt exactly when the window has room |
| Limiter.IPRateLimiter.Allow | signaling/internal/ws/limiter.go:29-56 | changes the log of this address only; local addresses always pass |
| Limiter.IPRateLimiter.Admit | signaling/internal/ws/limiter.go:35-55 | the locked part of it, with logs that share no buffer |
| Limiter.PeerMessageLimiter.Allow | signaling/internal/ws/limiter.go:99-118 | refills by elapsed time up to the capacity and takes a token exactly when there is one |
| LimiterRuns.AllowedExactlyWhenWindowHasRoom | signaling/internal/ws/limiter.go:35-55 | on every run of all addresses, refused exactly when the limit was accepted from this address in the window before |
| LimiterRuns.EveryWindowIsWithinLimit | signaling/internal/ws/limiter.go:35-55 | no half-open window of the configured length holds more than the limit |
| LimiterRuns.LogIsTheWindow | signaling/internal/ws/limiter.go:38-55 | after an attempt the log is exactly the accepted times still in the window, in order |
| LimiterRuns.TokensStayInRange | signaling/internal/ws/limiter.go:104-115 | tokens stay between 0 and the capacity on every run |
| LimiterRuns.PassesExactlyWhenEveryIntervalHasRoom | signaling/internal/ws/limiter.go:99-118 | a message passes exactly when, with it, no interval ending now exceeds capacity plus what was gained over it |
| LimiterRuns.IntervalsAreBounded | signaling/internal/ws/limiter.go:99-118 | in every interval at most capacity + rate * length messages pass |
| LimiterRuns.SpacedSenderIsNeverRefused | signaling/internal/ws/limiter.go:99-118 | messages at least 1 / rate apart all pass when the capacity is at least one |
| LimiterRuns.LimiterFollowsTheRun | signaling/internal/ws/limiter.go:99-118 | the tokens the run theorems speak of are those Allow leaves, call by call |
| SeederStore.Store.PutChunk | signaling/internal/seeder/store.go:72-119 | hash, quota, model ID and disk decide in this order; the files afterwards for every way the write can end |
| SeederStore.Store.WriteBeside | signaling/internal/seeder/store.go:107-116 | for every way the write can end: the chunk in its place, or no chunk file touched |
| SeederStore.Store.GetChunk | signaling/internal/seeder/store.go:122-140 | the bytes in the chunk's place, or which error |
| SeederStore.Store.HasChunk | signaling/internal/seeder/store.go:143-154 | whether there are any |
| SeederStore.Store.GetHeldChunks | signaling/internal/seeder/store.go:157-195 | the strictly increasing list of exactly the indices HasChunk accepts |
| SeederStore.Store.DeleteModel | signaling/internal/seeder/store.go:198-211 | removes the model's directory, or any part of it when the removal fails, and nothing else |
| SeederStore.Store.GetTotalUsedBytes | signaling/internal/seeder/store.go:214-238 | the 64-bit sum over exactly the chunk files |
| SeederStore.ChunkNameParses | signaling/internal/seeder/store.go:180-187 | a chunk file's name parses back to its index |
| SeederStore.TempNameIsNoBin | signaling/internal/seeder/store.go:107-108 | a temporary file never counts as a chunk file |
| SeederRuns.NamesAreAlwaysIndices | signaling/internal/seeder/store.go:98-119 | on every run, with any disk failures, every chunk file has the name of an index |
| SeederRuns.ChunkIsHeldSinceItsPut | signaling/internal/seeder/store.go:72-119 | a chunk is held exactly when a put filled its place and nothing since replaced or deleted it |
| SeederRuns.ChunkIsWhatWasAdmitted | signaling/internal/seeder/store.go:76-82 | its bytes are those put, and hash to the value they were admitted under |
| SeederRuns.RightBytesOnly | signaling/internal/seeder/store.go:76-82 | a put under the hash of certain bytes is refused as wrong exactly when it brings others |
| SeederRuns.HeldChunkIsThePiece | signaling/internal/seeder/store.go:72-140 | on every run a chunk admitted under the hash of certain bytes is those bytes |
| SeederRuns.ReadsAreThePlace | signaling/internal/seeder/store.go:122-154 | what is read for a model, however spelled, is the file of that index, or nothing if it was never filled |
| SeederRuns.DeletionTakesExactlyTheModel | signaling/internal/seeder/store.go:198-211 | a deletion that goes through takes all of the model and nothing else |
| SeederRuns.UsageStaysWithinQuota | signaling/internal/seeder/store.go:84-91 | the usage never exceeds a quota of at most 2^63 |
| SeederRuns.QuotaHoldsOnEveryRunExactlyWhen | signaling/internal/seeder/store.go:84-91 | that bound is exact: above it, a run exceeds the quota because the 64-bit sum compared with it wraps around |
| SeederRuns.SpellingsNameOneModel | signaling/internal/seeder/store.go:40-53 | upper or lower case, "0x", "0X" or neither: one directory |
| SeederRuns.DirectoryExactlyWhenSpelled | signaling/internal/seeder/store.go:40-61 | the IDs that name a directory are exactly: its hexadecimal digits in any case, "0x", "0X" or nothing in front, space around |
| Indexer.Handlers.OnModelRegistered | indexer/src/EventHandlers.ts:41-93 | the four tables after a registration, a repeated one included |
| Indexer.Handlers.OnModelDeactivated | indexer/src/EventHandlers.ts:95-114 | the tables after a deactivation; nothing for an unknown or inactive model |
| Indexer.Handlers.OnPaymentSplit | indexer/src/EventHandlers.ts:116-208 | the tables after a payment, with rows created where missing |
| IndexerRuns.PaymentTotalsAlwaysHold | indexer/src/EventHandlers.ts:116-208 | on every log: volume, payments and unique seeders equal their recomputation and the sums over the seeder table |
| IndexerRuns.SeederTableAlwaysHolds | indexer/src/EventHandlers.ts:183-200 | on every log: the seeder table is the recomputed payments of each seeder |
| IndexerRuns.CreatorTableAlwaysHolds | indexer/src/EventHandlers.ts:69-85 | on every log: a row for each creator who ever registered, with its registrations |
| IndexerRuns.CreatorTotalsAlwaysHold | indexer/src/EventHandlers.ts:69-92 | on every log: unique creators and models registered |
| IndexerRuns.ModelTotalsAlwaysHold | indexer/src/EventHandlers.ts:167-173 | on every log: a model's chunks, volume, creator and seeder earnings are what was paid since it was last registered |
| IndexerRuns.LastBlockIsKept | indexer/src/EventHandlers.ts:41-208 | the network's block is that of the last registration, payment or effective deactivation |
| IndexerRuns.TermsAreThoseRegistered | indexer/src/EventHandlers.ts:41-67 | on every log a model's creator, price, chunks, size and share are those of its last registration |
| IndexerRuns.TermsAreMadeUpFromFirstPayment | indexer/src/EventHandlers.ts:128-150 | those of a model paid for before it is registered are made up from the first payment |
| IndexerRuns.TotalsAreSumsOverModelsExactlyWhen | indexer/src/EventHandlers.ts:41-208 | chunks, volume and both earnings paid in all are the sums over models exactly when none is registered after being paid for |
| IndexerRuns.CreditsAlwaysHold | indexer/src/EventHandlers.ts:175-181 | on every log: a creator's royalties and delivered chunks are those of the payments naming it since it first registered |
| IndexerRuns.CreditsAreSumsOverCreatorsExactlyWhen | indexer/src/EventHandlers.ts:175-181 | payments settled, and creators' parts, are the sums over creators exactly when every such payment names a registered creator |
| IndexerRuns.ActiveCountsAreExact | indexer/src/EventHandlers.ts:41-114 | when each registration finds its model not active and each payment finds it registered: active models of the network, of the table, of the creators and of the log are the same |
| IndexerRuns.CountsAlwaysAgreeExactlyWhen | indexer/src/EventHandlers.ts:41-208 | and those counts agree after every event exactly on such logs |
| IndexerRuns.GuardsNeverSuppress | indexer/src/EventHandlers.ts:95-114 | no "greater than zero" guard ever holds back a decrement on such a log |
| Split.SplitConserves | frontend/src/lib/utils.ts:53-60 | no wei made or lost, and no negative side for a share within bounds |
| Split.SplittingLosesLessThanAWeiEach | frontend/src/lib/utils.ts:53-60 | n payments split one by one give the creator at most the split of the sum, and at most n - 1 wei less |
| Split.LossIsReached | frontend/src/services/downloader.ts:376-377 | that bound is reached |
| Split.OneMoreModelEarns | frontend/src/hooks/use-creator-data.ts:42-49 | one more model adds the creator's cut of its price for each of its chunks in each of its downloads |
| Split.QuotientCutsTowardsZero | frontend/src/lib/utils.ts:53-60 | rounding is towards zero, by less than a wei |
| Split.CreatorEarnings | frontend/src/hooks/use-creator-data.ts:36-60 | the earnings shown are the creator's cut of every chunk of every download of every model |

## Left out

- The web pages, components and formatting helpers, the command lines and the contracts themselves.
- WebRTC negotiation, WebSocket dialing and write pumps, HTTP routing and CORS, IPFS gateways and the order in which manifests are fetched from them, Pinata, RPC transport, IndexedDB and file system mechanics: only their state is kept, as maps, ordered channels and parameters.
- SHA-256, keccak, signature recovery and typed-data digests, JSON and base64: parameters.
- Session tokens and wallet challenges, which are simpler single-use stores than the two modelled.
- The hub runs over the in-memory tracker; the Redis tracker's relay between hubs is not part of this model.
- The statistics of the Redis tracker, the audit table of single payments, and the two counters the indexer never maintains (unique seeders of a model, unique models of a seeder).
- Failures of the Redis connection itself; and of overlapping Redis calls, what they do to chunks and addresses: only the index is followed through them.
- Downloader.Downloader.DownloadChunk: a chunk whose storing is over may be stored once more later, as another tab may store it; how often is not counted.
- Presence keys other than the chunk key are modelled as maps by their parts; only the chunk key is the joined text.
- PresenceRuns.QueriesAgree: order of peers and of chunks within an answer is not compared, since neither tracker defines it.
- ChunkStore.ChunkStore.GetChunk: does not say which other wallet's copy is returned when several have one.
- A second download of the same object, started after a cancel while the first still waits, appears in the first only through what it stores, deletes and unlocks; the status it writes is not part of this model.
- The retries of the seeder query: the list of seeders a run works with is a parameter.
- Downloader.Downloader.GetCandidateSeedersForChunk: says nothing of how random the order is.
- Downloader.Downloader.Start: is stated for model IDs and wallets without ':', whose chunk keys determine them.
- Case folding and white space beyond ASCII, and numbers past the exact range of doubles in the browser.
- The cross-chain quotes, the vendored script, and the network clients and caches of the browser.
