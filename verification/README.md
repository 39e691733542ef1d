# ElioP2P: a verified model

ElioP2P is a chunked read cache in front of object storage. A node answers GET
requests by cutting an object into chunks and resolving each from its own
two-tier cache, from peers, or from the origin; gossip tells nodes who holds what,
and a control plane keeps an index of chunks and hands out replication commands.
The one promise behind all of it is that the bytes served are the origin's bytes.

This project models the state machines that have to agree for that promise to
hold, and proves that they do. Where the code updates things in place the model is
a class or a method with loops, proved against functions on values; what the code
promises is proved about those functions, for every input, every interleaving or
every reachable state.

| component | modules |
|---|---|
| weighted LRU cache | `LruSpec` and `LruOps` (values, runs), `LruLaws` (what operations do), `LruCacheImpl` (the object) |
| two-tier chunk store | `ChunkStore` (refinement of a map, interleavings), `ChunkManagerImpl` (the object) |
| request handling | `RangeHeader`, `MetaCodec`, `Assembly`, `World` and `Cluster` (all nodes together), `CacheServes` and `ClusterLaws` (what single requests achieve) |
| chunk transfer | `Hedged` (racing downloads), `ChunkWire` and `ChunkTransfer` (wire protocol), `PeerFetch` (from the wire to the cluster), `WireLaws` (octets and refusals), `Bandwidth` |
| gossip | `GossipCodec` and `GossipBuffer` (codec), `Gossip` (all nodes together), `GossipLaws` (what messages teach), `GossipNode` (the object) |
| control plane | `Commands` and `CommandServerImpl`, `ChunkIndex` and `ChunkIndexImpl`, `HttpFraming`, `HttpSplits`, `HttpLoops`, `HttpBodies` and `HttpErrors`, `HttpClient` |
| request signing | `CanonicalQuery` |
| shared | `Base`, `Text` (C++ text primitives), `Octets` (big-endian integers) |

Conventions. Byte strings are `string` with one character per octet, or sequences
of octets in the binary codecs. SHA-256 is a function parameter: on the wire it yields 32 octets (`ChunkWire.HashOk`), in meta lines a nonempty blank-free
word (`World.WorldOk`, for ordered anchoring), which its hexadecimal is
(`PeerFetch.DigestIsAWord`); it need not be injective. Clock readings are
parameters; the LRU cache reads a monotone clock whose readings are counted.
Floating-point ratios and scores are exact (integers and reals). Unsigned 64-bit
arithmetic is written out where a difference or a sum can leave its range.

## What the code does that its comments and documents do not say

- Replacing an existing key never evicts, so the LRU size may exceed capacity
  until the next fresh put: `LruOps.PutSizeIff` says exactly when the 80% bound
  holds, and `LruOps.ReplacementOverfills` is a run that ends at 130%.
- A fresh item above 60% of capacity can evict itself; `LruOps.FreshPutSurvives`
  says exactly when. An empty key at the tail stalls an eviction step exactly when the
  tail is the victim (`LruOps.EvictStallsIff`).
- Storing an oversize value over a cached one leaves the old value in memory
  (`ChunkStore.StoreMemoryIff`), and a fresh value above 80% of capacity is not found
  again; `ChunkStore.StoredIsGotIff` is the one condition for every size. After a
  restart a chunk is found exactly when its id is a proper file name
  (`ChunkStore.RestartFindsIff`).
- An empty hash slot vanishes when the meta line is read again, so anchoring out of
  order shifts later hashes (`MetaCodec.AnchorKeepsIff`).
- The hedged download returns the first verifying peer in selection order, not the
  first in time. Two downloads that share a context share its stop flag, and one
  that begins with the flag already set returns no nonempty chunk
  (`Hedged.SharedFlagStarves`). `Hedged.CancelIndependentIff` says exactly when a
  flag set at any moment can change nothing.
- A state sync carries `chunk_locations` where the receiver expects a map from node
  to chunks, so tables hold pairs in both orientations. `Gossip.LookupsHonestIff` says
  exactly for which chunk ids lookups can be trusted; `Gossip.FlippedSync` is the
  smallest case that misleads. Gossip type numbers on the wire are 0 to 4.
- A client without a replication callback acknowledges commands that nobody ran
  (`Commands.UnsubscribedLoses`); a command with an empty id never leaves
  (`Commands.EmptyIdNeverLeaves`). A server clock that steps back makes a command due at
  once (`Commands.DueIff`).
- A Content-Length or a chunk size whose end leaves 64 bits makes the body depend on
  how `recv` split the stream; `HttpSplits.SplitIndependentIff` says exactly for which
  streams, and `HttpBodies.SplitsDifferHere` is one of them. Such a chunk size can also
  lead the loop back to a position already visited, and exactly then it goes on for
  ever (`HttpLoops.NeverReturnsIff`; `HttpLoops.NeverReturnsHere` is a response that
  does).
- A chunk listed only at registration stays in the index after the node has reported
  that it holds nothing (`ChunkIndex.RegisteredChunkSticks`); index and reports agree
  exactly while registrations list only what was reported
  (`ChunkIndex.AgreesThroughoutIff`).
- A range without a usable number where one is needed, or beyond the object, is
  answered 416. Numbers are read by `stoull`, which takes leading blanks and a sign and
  ignores text after the digits (`RangeHeader.TrailingTextIgnored`).
- Chunk ids with one file name overwrite and remove each other's files:
  `ChunkStore.StoreIsAMapIff` says that the store is a map over a set of ids exactly
  when their file names differ.

## Model

| member | source | states |
|---|---|---|
| LruSpec.SelectIsVictim | src/cache/lru_cache.cpp:114-152 | the key chosen stands at the one position whose entry is unprotected, among the last 32 and scoring above -1, of maximal score with ties to the least recent, or the tail when there is none |
| LruOps.EvictOneFacts | src/cache/lru_cache.cpp:154-175 | an eviction removes exactly the victim from list and map, reduces the size by its length, counts one eviction and keeps the invariant |
| LruOps.EvictDownFacts | src/cache/lru_cache.cpp:329-348 | an eviction loop ends at or below its bound or empty, and only drops entries |
| LruOps.PutFacts | src/cache/lru_cache.cpp:235-280 | a put is accepted iff the data fits; an accepted put of a new key ends at most at 80% of capacity from any valid state, a replacement changes the size by the difference; no other key's data changes; a refused put changes nothing |
| LruOps.PutSizeIff | src/cache/lru_cache.cpp:249-280 | an accepted put ends at most at 80% of capacity iff the key is new or the replaced sizes allow it |
| LruOps.ReplacementOverfills | src/cache/lru_cache.cpp:249-256 | a reachable run ends at 130% of capacity |
| LruOps.GetFacts | src/cache/lru_cache.cpp:212-233 | a get returns the data held and changes no key and no data |
| LruOps.RemoveKeeps | src/cache/lru_cache.cpp:282-302 | removal keeps the representation invariant |
| LruOps.RunInvariant | src/cache/lru_cache.cpp:99-348 | over every run with nonempty keys: list and map hold the same keys once each, the size is the sum of entry sizes, total items are live entries plus evictions, and the list is sorted by last access |
| LruOps.EveryRun | src/cache/lru_cache.cpp:99-348 | so for every run of a new cache |
| LruOps.FreshPutSurvives | src/cache/lru_cache.cpp:258-280 | with the call's clock readings within 60 s, a new key survives its own eviction pass iff it is at most 60% of capacity or its insertion did not take the cache above 80%; if present it has exactly its data |
| LruOps.LostPutEmpties | src/cache/lru_cache.cpp:258-280 | a new key that does not survive its own put leaves the cache empty |
| LruLaws.PutEvictsOnlyWhatItMust | src/cache/lru_cache.cpp:258-280 | a put of a new key evicts one by one only while there is no room, inserts at the front, and then only above 80% evicts one by one while above 60% |
| LruLaws.FittingPutKeepsAll | src/cache/lru_cache.cpp:258-280 | a put that ends at most at 80% evicts nothing |
| LruLaws.ForcedEvictions | src/cache/lru_cache.cpp:329-348 | forced eviction evicts one by one only while above 60%; the check after a put does so only above 80% |
| LruLaws.GetTouches | src/cache/lru_cache.cpp:212-233 | a hit moves the key to the front with the time read and one access more, a miss only counts |
| LruLaws.ReplaceTouches | src/cache/lru_cache.cpp:249-256 | replacing moves the key to the front with the new data and fresh counters and touches nothing else |
| LruLaws.RemoveDrops | src/cache/lru_cache.cpp:282-302 | a removal takes exactly the key out of list, map and size, and says whether it was there |
| LruLaws.MetadataIs | src/cache/lru_cache.cpp:365-374 | new metadata reaches one entry, if cached, and only its two fields |
| LruOps.TimeOnlyPicksTail | src/cache/lru_cache.cpp:40-55 | with only a non-negative time weight the victim is the least recently used entry |
| LruOps.TimeOnlyIsLru | src/cache/lru_cache.cpp:114-175 | an eviction loop then keeps exactly the longest prefix of the list that fits the bound |
| LruLaws.TimeOnlyPut | src/cache/lru_cache.cpp:258-280 | with the time weight alone a put keeps the new key followed by the longest prefix that leaves room for it, when that is at most 80% |
| LruLaws.ReplicaOnlyPicks | src/cache/lru_cache.cpp:40-55 | with the replica weight alone the victim is the most replicated of the last 32 idle for a minute, the tail when none is |
| LruLaws.HeatOnlyPicks | src/cache/lru_cache.cpp:40-55 | with the heat weight alone the victim is the hottest of the last 32 idle for a minute, the tail when none is |
| LruLaws.HeatByRate | src/cache/lru_cache.cpp:23-38 | heat is accesses per hour against the two thresholds, no time counting as 36 seconds |
| LruOps.EvictStallsIff | src/cache/lru_cache.cpp:114-175 | an eviction step of any list of distinct keys changes nothing iff the tail is the empty key and the tail is the victim; otherwise it drops one key |
| LruOps.EmptyKeyStalls | src/cache/lru_cache.cpp:154-158 | a list of the empty key alone always stalls |
| LruCacheImpl.LruCache.Touch | src/cache/lru_cache.cpp:99-106 | the key moves to the front of the list and nothing else changes |
| LruCacheImpl.LruCache.SelectEvictionTarget | src/cache/lru_cache.cpp:114-152 | the sampling loop returns the specified target |
| LruCacheImpl.LruCache.EvictOne | src/cache/lru_cache.cpp:154-175 | the new state is the specified eviction of the old one; the callback gets the evicted key and its data, and is not called on an empty list |
| LruCacheImpl.LruCache.MaybeEvict | src/cache/lru_cache.cpp:329-339 | above 80% evicts down to 60%, as specified |
| LruCacheImpl.LruCache.EvictToTarget | src/cache/lru_cache.cpp:341-348 | evicts down to the target, as specified |
| LruCacheImpl.LruCache.Get | src/cache/lru_cache.cpp:212-233 | result and new state are the specified get, and the invariant holds |
| LruCacheImpl.LruCache.Put | src/cache/lru_cache.cpp:235-280 | result and new state are the specified put, and the invariant holds |
| LruCacheImpl.LruCache.Remove | src/cache/lru_cache.cpp:282-302 | result and new state are the specified removal |
| LruCacheImpl.LruCache.Clear | src/cache/lru_cache.cpp:309-316 | everything is emptied |
| LruCacheImpl.LruCache.UpdateChunkMetadata | src/cache/lru_cache.cpp:365-374 | replica count and heat of one entry change, and nothing else |
| ChunkStore.StoreRefines | src/cache/chunk_manager.cpp:225-270 | storing refines a map update |
| ChunkStore.RemoveRefines | src/cache/chunk_manager.cpp:272-284 | removing refines deletion from the map, in both tiers |
| ChunkStore.GetFastRefines | src/cache/chunk_manager.cpp:188-197 | the first critical section of a get answers from the map or not at all |
| ChunkStore.GetSlowRefines | src/cache/chunk_manager.cpp:199-223 | the second critical section answers exactly the map's value, promoting from disk on the way |
| ChunkStore.PromoteRefines | src/cache/chunk_manager.cpp:385-396 | promotion keeps the map |
| ChunkStore.DemoteRefines | src/cache/chunk_manager.cpp:398-417 | demotion keeps the map |
| ChunkStore.PromotionFills | src/cache/chunk_manager.cpp:385-396 | a promotion of a file of at most 60% leaves its bytes in memory and the disk as it was; without a file it does nothing |
| ChunkStore.DemotionMoves | src/cache/chunk_manager.cpp:398-417 | a demotion takes a cached chunk out of memory and onto disk, and reports whether it could |
| ChunkStore.EvictRefines | src/cache/chunk_manager.cpp:419-422 | forced eviction keeps the map |
| ChunkStore.EvictionShrinks | src/cache/chunk_manager.cpp:419-422 | a forced eviction ends at most at 80% of capacity, does nothing below it, and leaves the disk alone |
| ChunkStore.HasIsMembership | src/cache/chunk_manager.cpp:286-291 | has_chunk is membership in the map |
| ChunkStore.StepKeeps | src/cache/chunk_manager.cpp:188-291 | every step of every interleaving keeps the refinement and answers truthfully |
| ChunkStore.StoreIsAMap | src/cache/chunk_manager.cpp:188-422 | in every interleaving of store, remove, promote, demote, evict and two-section gets, each completed get returned the bytes stored last, none if never stored or removed, and each flag told the truth |
| ChunkStore.StoreIsAMapIff | src/cache/chunk_manager.cpp:26-40 | every run of a new store over a set of ids is faithful iff the ids have file names of their own |
| ChunkStore.SharedNameMisleads | src/cache/chunk_manager.cpp:272-284 | otherwise removing one id loses another's chunk |
| ChunkStore.FreshIsGood | src/cache/chunk_manager.cpp:137-172 | the empty store refines the empty map |
| ChunkStore.StoreMemoryIff | src/cache/chunk_manager.cpp:244-270 | after a store of any size memory agrees with the updated map iff the value fits capacity or the id was not cached |
| ChunkStore.StoredIsGotIff | src/cache/chunk_manager.cpp:188-270 | a get right after a store of any size returns the bytes stored iff they fit capacity and replaced a cached value or fill at most 80%; otherwise nothing, or the value an oversize one failed to replace |
| ChunkStore.LargePromotionIff | src/cache/chunk_manager.cpp:199-223 | a get of a chunk on disk returns it iff it is at most 60% of capacity or its promotion leaves the cache at most at 80% |
| ChunkStore.RestartFindsIff | src/cache/chunk_manager.cpp:137-172 | after a restart a stored chunk is found iff its id is nonempty, not '.' or '..', and holds allowed characters only |
| ChunkStore.SanitizeIs | src/cache/chunk_manager.cpp:26-40 | a file name is nonempty, not '.' or '..', and holds letters, digits and '._-#' only, so no slash; away from three ids it keeps length and allowed characters and has '_' elsewhere |
| ChunkStore.SanitizeFixesIff | src/cache/chunk_manager.cpp:26-40 | an id is its own file name iff it is nonempty, not '.' or '..', and holds allowed characters only |
| ChunkManagerImpl.ChunkManager.GetShared | src/cache/chunk_manager.cpp:188-197 | the first critical section of a get, as specified |
| ChunkManagerImpl.ChunkManager.GetExclusive | src/cache/chunk_manager.cpp:199-223 | the second critical section, as specified |
| ChunkManagerImpl.ChunkManager.StoreChunk | src/cache/chunk_manager.cpp:244-270 | result and new state of both tiers, as specified |
| ChunkManagerImpl.ChunkManager.RemoveChunk | src/cache/chunk_manager.cpp:272-284 | result and new state of both tiers, as specified |
| ChunkManagerImpl.ChunkManager.PromoteToMemory | src/cache/chunk_manager.cpp:385-396 | result and new state, as specified |
| ChunkManagerImpl.ChunkManager.DemoteToDisk | src/cache/chunk_manager.cpp:398-417 | result and new state, as specified |
| ChunkManagerImpl.ChunkManager.TriggerEviction | src/cache/chunk_manager.cpp:419-422 | the memory tier is evicted to its target, the disk untouched |
| RangeHeader.ParseRange | src/proxy/request_handler.cpp:390-431 | a valid result satisfies first <= last < size |
| RangeHeader.ParseConforms | src/proxy/request_handler.cpp:390-431 | for decimal specs of any length the parser selects what section 14.1.2 of RFC 9110 prescribes iff no last position or suffix length of a satisfiable spec leaves 64 bits |
| RangeHeader.TrailingTextIgnored | src/proxy/request_handler.cpp:402-428 | text after the digits of either number changes nothing |
| Text.ParseSigned | src/proxy/request_handler.cpp:402-428 | a blank or plus sign before a number changes nothing, a minus sign negates it modulo 2^64 |
| Text.ParseNothing | src/proxy/request_handler.cpp:402-428 | without a digit there is no number |
| RangeHeader.RangeSpelled | src/proxy/request_handler.cpp:390-431 | one header as it is spelled |
| RangeHeader.OtherUnitsRefused | src/proxy/request_handler.cpp:390-400 | a header that does not begin with bytes= is no range |
| RangeHeader.PrintedRangeReadsBack | src/storage/s3_client.cpp:726-735 | the header printed for a chunk's offset and length reads back as exactly that chunk's bytes, here and by the standard |
| MetaCodec.SerializeMeta | src/proxy/request_handler.cpp:75-82 | the loop prints size, etag and hashes as specified |
| MetaCodec.ParseMeta | src/proxy/request_handler.cpp:84-98 | the loop reads size and tokens as specified |
| MetaCodec.SizeSurvives | src/proxy/request_handler.cpp:75-98 | the size survives printing and reading, whatever the tokens |
| MetaCodec.ParseSerialize | src/proxy/request_handler.cpp:75-98 | for blank-free tokens, reading back gives the info with empty tokens dropped |
| MetaCodec.RoundTripIff | src/proxy/request_handler.cpp:75-98 | the line is lossless iff no token is empty, or there is only an empty etag |
| MetaCodec.AnchorReread | src/proxy/request_handler.cpp:554-583 | an anchored hash past the end is read back directly after the known ones |
| MetaCodec.AnchorKeepsIff | src/proxy/request_handler.cpp:554-583 | slot i stays the hash of chunk i iff the anchored index is at most the list length, or the displaced chunk has the same hash |
| MetaCodec.OutOfOrderAnchorShifts | src/proxy/request_handler.cpp:78-96 | chunk 1 anchored before chunk 0 is read back as chunk 0 |
| MetaCodec.LineSpelled | src/proxy/request_handler.cpp:75-82 | one line as it is spelled |
| Assembly.ChunkIdOfIndex | src/cache/chunk_manager.cpp:313-319 | the id computed from an offset is key, underscore, index |
| Assembly.ChunkIdInjective | src/cache/chunk_manager.cpp:313-319 | chunk ids are injective in key and index |
| Assembly.ChunkIdIsNotMeta | src/cache/chunk_manager.cpp:313-319 | no chunk id is a meta key |
| Assembly.MetaKeyInjective | src/proxy/request_handler.cpp:433-495 | meta keys are injective |
| Assembly.IdsSpelled | src/cache/chunk_manager.cpp:313-319 | one chunk id and one meta key as they are spelled |
| Assembly.TrimExtends | src/proxy/request_handler.cpp:351-366 | the trimmed chunk i extends the body by exactly the next bytes of the object |
| Assembly.Assemble | src/proxy/request_handler.cpp:313-366 | the body is exactly the requested bytes; it fails iff some chunk of the range cannot be fetched |
| World.AnchorIsGood | src/proxy/request_handler.cpp:554-583 | anchoring the hash of a fetched chunk keeps the meta line truthful |
| Cluster.InfoStepOk | src/proxy/request_handler.cpp:433-495 | each step of resolving an object's size and hashes keeps cache and request truthful |
| Cluster.CacheStepOk | src/proxy/request_handler.cpp:506-539 | a chunk taken from the cache or from a peer is the origin's slice |
| Cluster.OriginStepOk | src/proxy/request_handler.cpp:541-560 | a chunk taken from the origin is its slice, and so is what is cached |
| Cluster.AnchorStepOk | src/proxy/request_handler.cpp:554-589 | re-reading, anchoring and rewriting the meta line keeps it truthful, with other requests in between |
| Cluster.ActOk | src/proxy/request_handler.cpp:226-589 | every step of every node, restarts and peer answers included, keeps caches, messages and requests truthful |
| Cluster.NextOk | src/proxy/request_handler.cpp:226-589 | every step of the cluster keeps every node truthful |
| Cluster.ServedBytesAreOrigins | src/proxy/request_handler.cpp:226-589 | in every run of any number of nodes over an immutable origin: every finished request carries the bytes asked for and the object's size, or 416 for a range the object does not have, or the 404 or 502 message; and every chunk in memory or on disk is the origin's slice |
| Cluster.RefusalsNeedSilence | src/proxy/request_handler.cpp:262-342 | in every run a request ends in 404 or 502 only by its own step, when the origin gave no answer or does not have the object |
| CacheServes.FetchCached | src/proxy/request_handler.cpp:506-512 | a chunk held in memory goes into the body at once, one held on disk a step later, never by way of the peers |
| CacheServes.CachedRequestIsServed | src/proxy/request_handler.cpp:226-512 | a request whose meta line and chunks are all in memory, or all on disk and at most 60%, is answered by its own steps alone with exactly the bytes asked for, or 416 |
| ClusterLaws.EveryStepCloser | src/proxy/request_handler.cpp:226-589 | every step of a request, whatever caches, peers and the origin contribute, brings it closer to its end |
| ClusterLaws.MissesGoOn | src/proxy/request_handler.cpp:506-550 | a miss leads from memory to disk, to the peers, to the origin, and only then to 502 |
| ClusterLaws.OriginAnswerIsKept | src/proxy/request_handler.cpp:541-560 | an origin that answers gives the slice, and the node keeps it |
| ClusterLaws.PeerAnswerIsKept | src/proxy/request_handler.cpp:530-538 | an admissible peer answer is kept and appended |
| ClusterLaws.FetchedGoesToAnchor | src/proxy/request_handler.cpp:554-570 | a chunk fetched from the origin goes on to be anchored, on the meta line held if it reads, else on what the request knows |
| ClusterLaws.AnchorIsRecorded | src/proxy/request_handler.cpp:554-583 | anchoring the next chunk in order leaves a kept meta line that reads back with its hash in its own slot |
| ClusterLaws.HeadIsKept | src/proxy/request_handler.cpp:433-495 | an answered HEAD settles size and etag, and the meta line is kept |
| ClusterLaws.MetaSavesHead | src/proxy/request_handler.cpp:433-495 | a meta line that reads, cached or from a peer, saves the HEAD |
| ClusterLaws.UploadIsKept | src/p2p/transfer.cpp:241-290 | an accepted upload is kept |
| ClusterLaws.RemovalRemoves | src/cache/chunk_manager.cpp:272-284 | a node's removal takes the chunk from both tiers |
| ClusterLaws.RestartForgets | src/cache/chunk_manager.cpp:137-172 | a restart forgets memory and requests, but no file |
| ClusterLaws.EvictionActs | src/cache/chunk_manager.cpp:419-422 | a node's eviction ends at most at 80% and leaves the files |
| Cluster.RecordedHashesAreOrigins | src/proxy/request_handler.cpp:554-583 | in every run that anchors in index order, every recorded hash i, in memory, on disk or in a message, is the hash of the origin's chunk i |
| Hedged.VerifiedMatches | src/p2p/transfer.cpp:750-792 | a verified answer is complete and matches the header hash and the expected hash |
| Hedged.WorkerKeeps | src/p2p/transfer.cpp:608-792 | a step of one download keeps its buffer a prefix of the peer's stream and its result the peer's own |
| Hedged.DoKeeps | src/p2p/transfer.cpp:843-944 | every step of workers and caller keeps the race safe |
| Hedged.WinnerStopsOthers | src/p2p/transfer.cpp:874-888 | adopting a winner sets the stop flag, and a download that sees it before it is complete gives up at its next slice |
| Hedged.ScheduleIndependent | src/p2p/transfer.cpp:843-944 | without cancellation every interleaving returns the first verifying candidate's bytes, in selection then fallback order, and nothing iff no candidate verifies |
| Hedged.StepProgress | src/p2p/transfer.cpp:843-944 | every step that changes more than the stop flag brings the end closer |
| Hedged.NeverStuck | src/p2p/transfer.cpp:843-944 | until it returns, the caller or the worker it awaits can move |
| Hedged.SharedFlagStarves | src/p2p/transfer.cpp:182-198 | a race that begins with the stop flag set returns, under every schedule, the first verifying selected peer among those announcing no bytes, else nothing; never a nonempty chunk |
| Hedged.Finishes | src/p2p/transfer.cpp:843-944 | from every state some schedule without cancellation brings the caller to its end |
| Hedged.CancelIndependentIff | src/p2p/transfer.cpp:182-198 | a stop flag set at whatever moments can change nothing iff the first verifying candidate would win under a flag set from the start, or there is none |
| Hedged.FallbackPeers | src/p2p/transfer.cpp:894-907 | the loop collects exactly the candidates not selected |
| Hedged.BestK | src/p2p/transfer.cpp:534-596 | no candidate left out is better than one selected |
| Hedged.EveryCandidateOnce | src/p2p/transfer.cpp:534-596 | in every mode, the shuffle included, selection and fallback together try every candidate once and nobody twice, and nobody left out is better than one selected |
| Hedged.SelectedAreBest | src/p2p/transfer.cpp:534-596 | mode by mode nobody left for fallback has a lower latency, a higher throughput or a lower rarity than one selected |
| PeerFetch.DigestIsAWord | src/p2p/transfer.cpp:765-768 | a hexadecimal digest is a nonempty blank-free word |
| PeerFetch.ViewsAgree | src/p2p/transfer.cpp:659-792 | the race's view of a peer and the wire's view of its connection agree, raw header hash and hexadecimal expected hash included |
| PeerFetch.AnsweredIsOnTheNet | src/cache/chunk_manager.cpp:188-223 | what a serving node's get returns is on the network after the cluster's serve steps |
| PeerFetch.CandidatesFromNodes | src/p2p/transfer.cpp:291-300 | nodes that answer by those steps meet what the next row asks of candidates |
| PeerFetch.FetchedIsOnTheNet | src/p2p/transfer.cpp:608-944 | a hedged download over serving nodes returns, under every schedule, an answer one of them sent for that chunk, nonempty and with the expected hash |
| PeerFetch.DownloadIsAPeerStep | src/proxy/request_handler.cpp:516-539 | so what it returns moves the request as the cluster's peer step |
| ChunkWire.HeaderRoundTrip | src/p2p/transfer.cpp:81-102 | a header survives the wire, whatever follows it |
| ChunkWire.ServeSeesRequest | src/p2p/transfer.cpp:207-238 | the server sees exactly the id asked for, or answers nothing |
| ChunkWire.ServeSeesUpload | src/p2p/transfer.cpp:207-290 | the server sees the upload whole, or neither stores nor answers |
| ChunkWire.DownloadedFromResponse | src/p2p/transfer.cpp:659-792 | a prefix of a response yields the chunk iff it is whole and a known hash agrees |
| ChunkWire.DownloadEndToEnd | src/p2p/transfer.cpp:659-760 | however much gets through, the downloader returns the provider's bytes or nothing, and says exactly when which |
| ChunkWire.UploadEndToEnd | src/p2p/transfer.cpp:1036-1123 | the receiver stores exactly the sender's bytes or nothing; the uploader reports success iff they were stored and the acknowledgement came back |
| WireLaws.RequestLayout | src/p2p/transfer.cpp:81-90 | the octets of a request: CHKP, version, type, id length, zeros, flag, id |
| WireLaws.ServerIgnores | src/p2p/transfer.cpp:207-238 | without magic number, with too long an id, or cut within header or id, nothing is answered or stored |
| WireLaws.CorruptUploadRefused | src/p2p/transfer.cpp:241-290 | an upload whose data does not hash to its header is answered with an error and not stored |
| WireLaws.DownloaderTakes | src/p2p/transfer.cpp:659-792 | a downloader takes only a response with magic number, complete data and matching hashes |
| ChunkTransfer.TcpStream.ReadExact | src/p2p/transfer.cpp:104-117 | under any splitting of reads, the next n bytes or all there are |
| ChunkTransfer.TcpStream.WriteExact | src/p2p/transfer.cpp:119-130 | under any splitting of writes, succeeds iff everything was taken, and in order |
| ChunkTransfer.TcpStream.ReadPayload | src/p2p/transfer.cpp:700-745 | the slice loop yields the announced bytes, or nothing iff they do not arrive or the stop flag is seen before some slice |
| ChunkTransfer.TcpStream.WriteSliced | src/p2p/transfer.cpp:340-362 | slicing the payload does not change what is written |
| ChunkTransfer.HandleChunkRequest | src/p2p/transfer.cpp:207-370 | what is stored and written depends only on the bytes received, as specified |
| ChunkTransfer.DownloadFromPeer | src/p2p/transfer.cpp:608-792 | request written and result returned depend only on the bytes exchanged and the stop flag's polls, as specified |
| ChunkTransfer.UploadChunk | src/p2p/transfer.cpp:1007-1138 | upload written and success reported depend only on the bytes exchanged, as specified |
| Bandwidth.BandwidthLimiter.Acquire | src/p2p/transfer.cpp:25-60 | wait and new budget are the specified grant |
| Bandwidth.WaitCovers | src/p2p/transfer.cpp:54-55 | the rounded wait covers the shortfall to within a millisecond's worth |
| Bandwidth.WaitIs | src/p2p/transfer.cpp:25-60 | a call within the budget, restored each second, does not wait; any other waits for the missing bytes at the rate, in whole milliseconds |
| Bandwidth.UnlimitedNeverWaits | src/p2p/transfer.cpp:32-35 | without a limit nobody waits |
| Bandwidth.ServeKeeps | src/p2p/transfer.cpp:25-60 | one call keeps bytes granted within resets, waits and calls so far |
| Bandwidth.ThrottleBound | src/p2p/transfer.cpp:25-60 | N calls within T whole seconds with W ms assigned are granted at most M(1+T) + (W+N)·max(M/1024,1)/1000 bytes in any interleaving; the budget never exceeds M |
| GossipCodec.ReadEntriesOf | src/p2p/node_discovery.cpp:385-420 | the chunk-map loop reads back every entry written, leaving the rest |
| GossipCodec.ReadPeersOf | src/p2p/node_discovery.cpp:421-522 | the peer loop reads back every record written, leaving the rest |
| GossipCodec.GossipRoundTrip | src/p2p/node_discovery.cpp:327-628 | for any enumeration order of maps and sets, decoding the encoding gives the message, leaves nothing unread and never reads out of bounds |
| GossipCodec.GossipRoundTripIff | src/p2p/node_discovery.cpp:327-628 | a message whose fields fit survives iff its peers are keyed by their node ids |
| GossipCodec.GossipInjective | src/p2p/node_discovery.cpp:525-628 | equal bytes mean equal messages |
| WireLaws.GossipOpening | src/p2p/node_discovery.cpp:525-545 | a message opens with GPSP, version 1 and its kind |
| Octets.PrintedOctets | src/p2p/transfer.cpp:81-90 | 16- and 32-bit numbers are printed most significant octet first |
| Octets.PrintedOctets64 | src/p2p/node_discovery.cpp:545-549 | so are 64-bit numbers |
| WireLaws.GossipRefuses | src/p2p/node_discovery.cpp:327-350 | a buffer without magic number and version is refused |
| GossipBuffer.Serialize | src/p2p/node_discovery.cpp:525-628 | the appending loops produce the encoding under some enumeration of the containers |
| GossipBuffer.Deserialize | src/p2p/node_discovery.cpp:327-522 | the nested loops compute the decoding |
| GossipBuffer.SendAndReceive | src/p2p/node_discovery.cpp:327-628 | the receiver gets the sender's message |
| Gossip.MergeTraceable | src/p2p/node_discovery.cpp:1217-1233 | merging a traceable message keeps a location table traceable |
| Gossip.HandleTraceable | src/p2p/node_discovery.cpp:1145-1290 | every handler keeps every pair in the table traceable to an announcement |
| GossipLaws.AnnouncementTeaches | src/p2p/node_discovery.cpp:1217-1233 | an announcement adds exactly the pairs it lists under other nodes, to locations and known peers |
| GossipLaws.RemovalForgets | src/p2p/node_discovery.cpp:1235-1256 | a removal takes exactly the pairs it lists under other nodes |
| GossipLaws.LookupFollows | src/p2p/node_discovery.cpp:830-844 | after an announcement a lookup names the node iff it is a known active peer, after a removal it does not |
| GossipLaws.OtherPairsStay | src/p2p/node_discovery.cpp:1217-1290 | pairs a message does not name are as before |
| GossipLaws.JoinAdopts | src/p2p/node_discovery.cpp:1176-1196 | a join takes over the records of other nodes, seen now, and nothing else |
| GossipLaws.LeaveDrops | src/p2p/node_discovery.cpp:1198-1215 | a leave takes a known node from peers and chunks; that of an unknown one does nothing |
| GossipLaws.SyncMerges | src/p2p/node_discovery.cpp:1258-1290 | a sync takes over records, adds pairs, and replaces the sender's chunk list |
| GossipLaws.AnnounceRecords | src/p2p/node_discovery.cpp:846-858 | announcing records the node itself and tells others exactly that pair |
| GossipLaws.RetractForgets | src/p2p/node_discovery.cpp:860-874 | retracting takes the node itself from the chunk |
| GossipLaws.MessageCarries | src/p2p/node_discovery.cpp:1117-1143 | a message carries the location table; a sync the active peers, a join or leave the sender's record |
| GossipLaws.CleanupDrops | src/p2p/node_discovery.cpp:123-141 | cleaning up drops exactly the peers not seen for five minutes |
| GossipLaws.RemovePeerDrops | src/p2p/node_discovery.cpp:893-905 | removing a known peer takes it from peers and chunks; an unknown one changes nothing |
| GossipLaws.AnnouncedIsFound | src/p2p/node_discovery.cpp:846-858 | after one node announces and another receives, a lookup there names the first if it is known as active |
| Gossip.NextSound | src/p2p/node_discovery.cpp:830-1290 | every step of every node, sending included, keeps tables and messages traceable |
| Gossip.RunSound | src/p2p/node_discovery.cpp:830-1290 | so does every run, under loss, duplication and reordering |
| Gossip.LookupsAreTraceable | src/p2p/node_discovery.cpp:830-844 | every pair in a table or message joins a node and a chunk it announced, in one orientation or the other; the lookup of a chunk whose id is no node's id names only nodes that announced it before |
| Gossip.LookupsHonestIff | src/p2p/node_discovery.cpp:830-844 | every lookup of a chunk in every run names only nodes that announced it before iff its id is no node's id, or empty, or the only chunk id in use |
| Gossip.MisleadingRun | src/p2p/node_discovery.cpp:1117-1143 | otherwise a run of two nodes with one sync misleads the lookup |
| Gossip.FlippedSync | src/p2p/node_discovery.cpp:1117-1143 | one node called as a chunk and one other chunk are already too much |
| GossipNode.NodeDiscovery.AnnounceChunk | src/p2p/node_discovery.cpp:846-858 | the node and its record gain the chunk, as specified |
| GossipNode.NodeDiscovery.RemoveChunkAnnouncement | src/p2p/node_discovery.cpp:860-874 | the node and its record lose the chunk, as specified |
| GossipNode.NodeDiscovery.MergeChunkMap | src/p2p/node_discovery.cpp:1217-1233 | the nested loops merge the message's pairs, in any order, the local node's excepted |
| GossipNode.NodeDiscovery.SubtractChunkMap | src/p2p/node_discovery.cpp:1235-1247 | the nested loops erase the message's pairs, in any order, the local node's excepted |
| GossipNode.NodeDiscovery.HandleNodeJoin | src/p2p/node_discovery.cpp:1176-1196 | peer records are taken over with the current time, the local one excepted |
| GossipNode.NodeDiscovery.HandleNodeLeave | src/p2p/node_discovery.cpp:1198-1215 | a known source leaves the peers and every location set |
| GossipNode.NodeDiscovery.HandleChunkAnnounce | src/p2p/node_discovery.cpp:1217-1233 | locations and known peers gain the chunks listed, as specified |
| GossipNode.NodeDiscovery.HandleChunkRemove | src/p2p/node_discovery.cpp:1235-1256 | locations and known peers lose the chunks listed, as specified |
| GossipNode.NodeDiscovery.HandleStateSync | src/p2p/node_discovery.cpp:1258-1290 | peers and locations are merged, the source's chunk list replaced, as specified |
| GossipNode.NodeDiscovery.HandleMessage | src/p2p/node_discovery.cpp:1145-1174 | the dispatch is the specified handler |
| GossipNode.NodeDiscovery.GetPeersWithChunk | src/p2p/node_discovery.cpp:830-844 | exactly the records of the known active peers located at the chunk, each once |
| Commands.DueIff | src/control/server.cpp:537-544 | a command is due iff never delivered, delivered 60 s ago or more, or delivered in the server's future |
| Commands.HandedOut | src/control/server.cpp:537-556 | a poll hands out a command iff its entry is due |
| Commands.PollAnswers | src/control/server.cpp:507-562 | a poll is refused without a node id or for an unknown node, and otherwise answered in queue order |
| Commands.NextKeeps | src/control/server.cpp:492-608 | every step of server, network and clients keeps: queued commands are issued ones under unique ids, clients hold and acknowledge only what they may, and every issued command waits or was dealt with |
| Commands.AtLeastOnce | src/control/client.cpp:678-797 | under any loss, duplication, delay or client crash, an issued command still waits at the server unless a callback returned normally on a batch holding exactly that command, or a client without a callback fetched it |
| Commands.ProcessedLeaves | src/control/client.cpp:727-746 | a callback that returns leads, by ACKs that arrive, to every command of its batch with an id being gone |
| Commands.NeverAfterAck | src/control/server.cpp:590-604 | after its ACK is handled no poll by any node hands a command out again |
| Commands.AckLeavesNoEmptyQueue | src/control/server.cpp:592-603 | an ACK leaves no empty queue behind |
| Commands.DeliveriesSpaced | src/control/server.cpp:535-545 | two deliveries of one command are at least 60 s apart |
| Commands.Redelivers | src/control/server.cpp:535-561 | 60 s after its last delivery any poll by its registered node carries a waiting command |
| Commands.EmptyIdNeverLeaves | src/control/server.cpp:584-588 | in every run a waiting command with an empty id waits for ever |
| Commands.UnsubscribedLoses | src/control/client.cpp:727-746 | from any batch fetched by a client without a callback, every command with an id can be acknowledged away although nobody ran it |
| CommandServerImpl.Sweep | src/control/server.cpp:535-556 | the poll loop stamps exactly the due commands and returns them in queue order |
| CommandServerImpl.CommandServer.HandlePoll | src/control/server.cpp:507-562 | reply and new queues are the specified poll, errors included |
| CommandServerImpl.CommandServer.HandleAck | src/control/server.cpp:584-608 | the new queues are the specified ACK; an emptied queue is dropped |
| CommandServerImpl.SendAcks | src/control/client.cpp:742-746 | one ACK per nonempty id, in order |
| ChunkIndex.UpdateListed | src/control/server.cpp:82-100 | an update changes one node's membership in the chunks listed, and nothing else |
| ChunkIndex.NextListed | src/control/server.cpp:189-229 | a registration only adds entries of its node; a report replaces its previous report |
| ChunkIndex.RunSound | src/control/server.cpp:82-351 | in every run no index entry is empty and every indexed node is registered |
| ChunkIndex.RunWithinLimit | src/control/server.cpp:193-210 | in every run the node limit holds; a registration is refused iff the node is new and the limit reached |
| ChunkIndex.AgreesThroughoutIff | src/control/server.cpp:189-351 | index and latest report agree on a node throughout a run iff every accepted registration of it lists only chunks it has reported |
| ChunkIndex.SilentRegistrationsAgree | src/control/server.cpp:334-351 | a node whose registrations list nothing is indexed under exactly its latest report |
| ChunkIndex.RegisteredChunkSticks | src/control/server.cpp:211-224 | a chunk listed at registration stays indexed after an empty report |
| ChunkIndexImpl.Server.UpdateChunkIndex | src/control/server.cpp:82-100 | the loop computes the specified update |
| ChunkIndexImpl.Server.HandleRegister | src/control/server.cpp:189-229 | acceptance under the node limit and the new state, as specified |
| ChunkIndexImpl.Server.HandleReport | src/control/server.cpp:334-351 | acceptance and the new state, as specified |
| HttpFraming.FindStable | src/control/client.cpp:151-157 | a match found in what has arrived is the first match in the whole stream |
| HttpFraming.HeadStable | src/control/client.cpp:159-199 | status and header fields read from what has arrived are those of the whole stream |
| HttpSplits.SameUnlessOpen | src/control/client.cpp:201-235 | chunk loops over two splits append the same bytes unless a round's size leaves 64 bits with bytes still to come |
| HttpSplits.LongerBody | src/control/client.cpp:225-235 | in such a round having one byte more makes the final body longer |
| HttpSplits.EndsUnlessWraps | src/control/client.cpp:201-235 | while no size leaves 64 bits the chunk loop ends |
| HttpSplits.ReturnsIff | src/control/client.cpp:127-252 | the result of a response is the one after one round more than it has bytes; if it has none then, it never has |
| HttpLoops.NeverStopsIff | src/control/client.cpp:201-235 | the chunk loop never ends iff a size line leads back to a position already visited |
| HttpLoops.NeverReturnsIff | src/control/client.cpp:127-252 | a response never returns, in any split, iff it is chunked and a size line leads back to a position already visited |
| HttpLoops.LineBackNeverReturns | src/control/client.cpp:211-235 | a size of 2^64 less the length of its own line leads back to that line, whatever follows |
| HttpLoops.NeverReturnsHere | src/control/client.cpp:211-235 | one complete response that never returns |
| HttpSplits.SplitIndependentIff | src/control/client.cpp:127-252 | all splits of a stream have one result, or none has any, iff its Content-Length body does not wrap 64 bits with bytes after the header, and its chunk loop does not end normally after a round whose size wraps with bytes still to come |
| HttpBodies.ChunksDecoded | src/control/client.cpp:201-235 | decoding any encoding of nonempty chunks, with padding and extensions (section 7.1 of RFC 9112), yields their concatenation in any split |
| HttpBodies.ChunkedRoundTrip | src/control/client.cpp:127-252 | so for a whole chunked response, with any trailer |
| HttpBodies.CountedRoundTrip | src/control/client.cpp:237-250 | a counted response in any split yields exactly the announced bytes (section 6.3 of RFC 9112) |
| HttpErrors.CountedCut | src/control/client.cpp:237-250 | a body short of its Content-Length is answered 500 in every split |
| HttpErrors.ChunkedCut | src/control/client.cpp:201-235 | an encoding cut anywhere before its last size line is complete is answered 500 in every split |
| HttpErrors.BadSizeLine | src/control/client.cpp:216-223 | a size line that is no number is answered 500 |
| HttpErrors.BadLength | src/control/client.cpp:237-245 | a Content-Length that is no number is answered 500 |
| HttpErrors.HeaderCut | src/control/client.cpp:151-158 | a stream without a complete header block is answered 500 |
| HttpErrors.BadStatus | src/control/client.cpp:160-172 | a status that is no number is answered 500 |
| HttpErrors.StatusWithoutBlank | src/control/client.cpp:160-172 | a first line without a blank counts as status 500 |
| HttpErrors.UncountedBody | src/control/client.cpp:251-256 | without either field the body is all that follows the header |
| HttpErrors.LaterFieldCounts | src/control/client.cpp:174-190 | of two lines with one name, in any case and padding, the later counts |
| HttpErrors.NoColonNoField | src/control/client.cpp:182-188 | a line without a colon is passed over |
| HttpErrors.TrimIs | src/control/client.cpp:37-44 | trimming takes blanks and tabs around and nothing else |
| HttpErrors.ChunkedAnywhere | src/control/client.cpp:194-199 | a coding list naming chunked anywhere, in any case, is chunked |
| HttpErrors.NotChunked | src/control/client.cpp:194-199 | a coding list that does not name chunked is not |
| HttpBodies.HeadRead | src/control/client.cpp:159-190 | a status line and a header line are read as what they say |
| HttpBodies.WrappingSizeSplits | src/control/client.cpp:211-235 | a size of 2^64 - 2 appends nothing when the split is after its line and the rest of the stream when it is not |
| HttpBodies.SplitsDifferHere | src/control/client.cpp:211-235 | the same for one complete response |
| HttpClient.Connection.ReadMore | src/control/client.cpp:133-141 | the buffer grows by what arrived and the stream is unchanged |
| HttpClient.Connection.EnsureBuffered | src/control/client.cpp:144-149 | succeeds iff the stream is long enough, and takes no piece more than needed |
| HttpClient.Connection.ReadUntil | src/control/client.cpp:151-158 | finds the first match of the whole stream, taking no piece more than needed, or learns there is none |
| HttpClient.Connection.ReadFields | src/control/client.cpp:174-189 | the loop over header lines computes the specified fields |
| HttpClient.Connection.ReadRound | src/control/client.cpp:204-234 | one round of the chunk loop, 64-bit positions and bytes arrived included, as specified |
| HttpClient.Connection.ReadChunks | src/control/client.cpp:201-235 | the chunk loop as specified, or still going after the given number of rounds |
| HttpClient.Connection.ReadCounted | src/control/client.cpp:237-250 | the counted body as specified, wrap-around included |
| HttpClient.ReadResponse | src/control/client.cpp:127-252 | the result is the specified decoding of the pieces received, errors included |
| CanonicalQuery.RoundTrip | src/storage/s3_client.cpp:87-97 | percent-decoding (section 2.1 of RFC 3986) undoes the encoding |
| CanonicalQuery.EncodeClean | src/storage/s3_client.cpp:87-97 | encoded text holds only unreserved characters and percent signs |
| CanonicalQuery.EncodeCharIs | src/storage/s3_client.cpp:87-97 | unreserved characters stand for themselves, every other octet is a percent sign and two upper-case hexadecimal digits |
| CanonicalQuery.SplitIs | src/storage/s3_client.cpp:130-136 | a piece is split at its first '=' |
| CanonicalQuery.ParamsPieces | src/storage/s3_client.cpp:127-129 | pieces are taken in order, empty ones leave no trace |
| CanonicalQuery.CanonicalMeans | src/storage/s3_client.cpp:123-142 | read as a query string the output is strictly sorted by encoded name and percent-decodes to exactly the input's names and values |
| CanonicalQuery.LessIsLexicographic | src/storage/s3_client.cpp:124-124 | the sorting order is the lexicographic one |
| CanonicalQuery.CanonicalIff | src/storage/s3_client.cpp:123-142 | two query strings have one canonical form iff they mean the same map |
| CanonicalQuery.OrderIrrelevant | src/storage/s3_client.cpp:123-142 | permuting distinctly named parameters does not change the output |
| CanonicalQuery.UrlEncodeQuery | src/storage/s3_client.cpp:87-97 | the loop computes the encoding |
| CanonicalQuery.CanonicalizeQueryString | src/storage/s3_client.cpp:123-142 | splitting, collecting and printing compute the canonical form |

## Left out

- Sockets, coroutines, scheduler, threads and shutdown: critical sections, reads, writes and deliveries are atomic steps.
- I/O faults of the disk cache: every file operation succeeds, so persisting never fails and loading fails only for a missing file; a store without a disk path is covered by the class, not by the refinement theorem.
- SHA-256, HMAC and request signatures: a hash is a function parameter.
- Floating-point rounding and latency or throughput averages: ratios and scores are exact; wire doubles are eight opaque octets.
- The iterator map of the LRU list, modelled as the key's position; the counts of hot, warm and cold items.
- The chunk manager's metadata map and its statistics: never consulted by a get.
- Proxy router, bucket check, authentication detection and cache-key parsing: a request starts from its key.
- The mutex around rewriting a meta line: the model allows more interleavings than the code.
- FNV message ids for gossip deduplication: a dropped duplicate is a lost message in the model.
- Gossip convergence, and propagation of chunk removals, which broadcast no chunks.
- Decoding of arbitrary malformed gossip buffers beyond marking an unchecked read as out of bounds.
- The loops of stale-peer cleanup, `remove_peer` and `create_gossip_message`: steps of the gossip network on values.
- HttpClient.Connection.ReadChunks: takes a number of rounds, since the source's loop need not end; every statement about results is for all numbers of rounds.
- Command enqueueing, which no code shown performs, and server restarts, which lose the queues: the former is an environment step.
- Path parsing in the control server: handlers take the node id.
- `get_chunk_rarity`: a candidate's rarity score is a field of the candidate.
- MetadataManager persistence, configuration, logging, the OSS client, listing and XML parsing, resume progress files.
