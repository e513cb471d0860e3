# A verified model of mindD's stateful cores

mindD is a memory server for agents: key-value, episodic, semantic and artifact
blocks behind gRPC, each namespace bound to a driver. This project models the
parts of it where state, ordering and arithmetic interact, and proves what those
parts promise.

* **Caching embedder** (`Lru`, `EmbedCache`, `CachingEmbedder`, `ConcurrentEmbed`,
  `ConcurrentArrays`, `SemanticUpsert`). The linked list and map of the LRU as a
  class over heap arrays, the partition / ask / scatter loops of `Embed`, any
  interleaving of concurrent calls, first on vectors as values and then on the
  arrays behind them, and `Upsert` on top. Every call gets the provider's own
  vectors, the list is always the most recent texts in order, and a caller that
  overwrites what it was given never changes what anyone else is given.
* **Envelope encryption** (`Aad`, `Keyring`, `KvStore`, `KvEncrypted`,
  `KvRefinement`, `Episodic`, `EpisodicRefinement`). The keyring, the envelope and
  the two encrypting drivers over the in-memory drivers. Over every run, with keys
  rotated and plaintext migrated along the way, callers see what an unencrypted
  driver would give them, up to nil versus empty values.
* **Reciprocal Rank Fusion** (`Ordering`, `Fusion`). The score loops and the sort,
  with real-valued scores: the result is determined, and consensus and dominance
  hold with exact bounds.
* **Artifacts on a file system** (`Strings`, `ArtifactLayout`, `ArtifactFs`,
  `ArtifactTree`, `ArtifactSteps`, `ArtifactDurability`, `ArtifactList`,
  `ArtifactStream`). Validation and paths, what each driver call does to the files
  under every fault, files in the way of directories, system-call interleavings
  over inodes and how long an upload lasts under them, listing and paging, and the
  chunked streams in both directions.
* **Policy** (`TokenBucket`, `Patterns`, `RuleEngine`, `RateBound`, `Policy`). Rule scanning
  with fall-through, token accounting, the rate bound over any window of any
  interleaving, and the once-per-stream check.

Assumed, as parameters with a stated law: the authenticated cipher opens what it
sealed under the same key, nonce and associated data (NIST SP 800-38D, sections
7.1 and 7.2, predicate `Keyring.Lawful`) and, for what cannot be read during a
migration, never opens to more bytes than it was given (section 7.2, predicate
`Keyring.NeverExpands`); JSON metadata reads back as written
(`ArtifactFs.Lawful`); the embedding provider's vectors are a function of the
text. SHA-256, clocks, random nonces, generated ids and temporary file names are
parameters. The rate limiter is the token bucket of `TokenBucket`. A Go string is
a Dafny string with one character per byte; a path is its sequence of components.

Where the code does not do what a reader might expect, the code is modelled and a
lemma says exactly when it does:

* Artifact ids that begin with `..` pass validation and get the shard `..`, so
  they live in the base directory, shared by all namespaces and in no listing
  (`EscapingIdsCollide`, `ThreeDotsAreAnId`, `EscapingIdsAreNotListed`), although
  the comments in `internal/artifact/validate.go` and `fs.go` say an id cannot
  leave its namespace. Such an id named as a namespace, `..x` for one, puts a file
  where that namespace's directory has to be (`IdsCanBlockANamespace`). Calls on
  one artifact leave what is found of another as it was exactly when they share no
  file and neither has one where the other needs a directory (`SeparateExactly`,
  with `FilesAreSharedExactlyOnCollision` and `DirectoriesAreBlockedExactly` for
  the two parts, read off the names).
* The package comment of `internal/artifact/drivers/fs/fs.go` gives the layout as
  base/namespace/id; the code adds a shard directory, made of the first two
  characters of the id whatever they are.
* An artifact is atomic, whatever is called on the artifacts that share its
  directory, exactly when it is not in the shard `.p` of the temporary files and
  not named as the metadata file of another id, or that file's temporary form
  (`AtomicExactly`). In the shard `.p` an id can have the name of a temporary
  file, so that calls on it interfere with uploads under way (`TempShardTears`);
  under the name of a metadata file an upload of that other id leaves its
  metadata (`SidecarNamesTear`).
* An upload that fails while its metadata is written removes the bytes it
  replaced and leaves the old metadata, which Delete then no longer finds
  (`FailedOverwriteOrphansMetadata`).
* Two uploads of one artifact share the temporary file of its metadata: one that
  finds it gone removes the data, although the other has been acknowledged by
  then. An acknowledged upload stays until it is replaced or deleted exactly when
  no other upload to it was between its data rename and its end as this one
  renamed its own (`SuccessLastsExactly`, `UnsettledIsLost`).
* Plaintext is read as it is during a migration exactly when it does not have the
  shape of an envelope, a first byte of 1 and 17 bytes or more
  (`PlaintextReadsExactly`, and for a whole store `MigrationStartsExactly`).
* Texts whose digests collide are answered alike within a batch; every position is
  right exactly when the list is right about the texts it holds and the others
  collide only with equal vectors (`CollisionIsNoticed`).
* The consensus of two lanes holds up to 61 ids each and fails at 62
  (`ConsensusFailsAtSixtyTwo`); the default depth is 50. Deeper, the ranks that
  still agree are those of `ConsensusExactly`.
* A `|` in a tenant, an agent or a namespace can let callers share a rate-limit
  bucket kept by more than one of these: two tenants can exactly when one of them,
  followed by the tag of the next dimension, begins the other
  (`TenantsShareExactly`, `BarInTenantCollides`), and two tenants and agents
  likewise (`CallersShareExactly`). A `|` in a rule's name can let it share
  another rule's bucket: `RulesShareExactly` is the exact condition for any two
  rules, on their names and on what their buckets are kept by.
* After a stream's first message is refused the messages after it flow on, so a
  handler that ignores the refusal can succeed (`RefusalCanBeIgnored`). Success
  means the first message was allowed, on every stream and under every policy,
  exactly for the handlers that never return success once they have seen a refusal
  (`SafeExactly`).
* The head comment of `internal/policy/rule_engine.go` says the first matching
  rule decides; rate limits with a token left and caps that are not exceeded do
  not, and evaluation goes on (`DecisionIsFirstDeciding`).

`dafny verify dfyconfig.toml` checks the whole project.

## Model

| member | source | states |
|---|---|---|
| Ordering.SortSlice | internal/semantic/hybrid.go:42-47 | an in-place sort by any weak order leaves a permutation in which no later element precedes an earlier one |
| Ordering.SortedUnique | internal/semantic/hybrid.go:26-30 | two sequences over the same elements, both sorted by a strict total order, are equal, so a sorted result does not depend on the algorithm or the iteration order |
| Ordering.SortByName | internal/artifact/drivers/fs/fs.go:219 | sorting by name permutes, orders by name, and strictly so when names are distinct |
| Lru.GetIsTouch | internal/semantic/cache.go:140-149 | a get that hits moves its key to the front of the recency order; one that misses changes nothing |
| Lru.PutIsTouch | internal/semantic/cache.go:151-167 | a put, whether it replaces, inserts or evicts, leaves the cap most recently touched keys in order |
| Lru.LruExactness | internal/semantic/cache.go:140-167 | after any run of successful single-text calls the list is exactly the cap most recently embedded distinct texts, in recency order |
| Lru.Inclusion | internal/semantic/cache.go:140-167 | on the same run a smaller cache is a prefix of a larger one, which never misses where the smaller hits |
| Lru.HitDistance | internal/semantic/cache.go:99-112 | a text hits if and only if it was embedded before and fewer than cap distinct texts have been embedded since |
| EmbedCache.Cache.Get | internal/semantic/cache.go:140-149 | on the linked list and map, in bijection throughout: answers what the list holds and moves the entry to the front |
| EmbedCache.Cache.Put | internal/semantic/cache.go:151-167 | replaces in place or pushes and evicts the last entry, keeping list and map in bijection and the size within cap |
| CachingEmbedder.CloneVec | internal/semantic/cache.go:169-176 | a copy with the same contents, nil for nil, never an existing array |
| CachingEmbedder.MissesMeaning | internal/semantic/cache.go:94-112 | the provider is asked exactly for the unknown digests of the batch, once each, by their first text |
| CachingEmbedder.PlanMeaning | internal/semantic/cache.go:94-112 | the collected misses and waiting positions are exactly the misses and the positions of each digest |
| CachingEmbedder.CachingEmbedder.Partition | internal/semantic/cache.go:94-112 | the first loop fills the hits from the list as it was and leaves every other position waiting for its digest |
| CachingEmbedder.CachingEmbedder.Scatter | internal/semantic/cache.go:130-136 | the second loop caches every miss and fills exactly its waiting positions, each with an array of its own |
| CachingEmbedder.CachingEmbedder.Embed | internal/semantic/cache.go:91-138 | at most one provider call, for the distinct misses; fails exactly when that call fails or miscounts; otherwise every position has its answer in a fresh array the cache does not keep |
| CachingEmbedder.CallerScribbles | internal/semantic/cache.go:132-134 | overwriting every returned array leaves the cache as the call left it |
| CachingEmbedder.BatchKeepsSound | internal/semantic/cache.go:130-136 | a batch keeps every cached vector that of some text seen with that digest |
| CachingEmbedder.AgreesWithProvider | internal/semantic/cache.go:33-41 | when no collision can be noticed each position of a batch gets exactly the provider's vector for its text |
| CachingEmbedder.CollisionIsNoticed | internal/semantic/cache.go:99-136 | on any list, every position of a batch is right if and only if the list has the right vector for each text whose digest it holds and no two of the others collide with different vectors |
| CachingEmbedder.SingleIsAccess | internal/semantic/service.go:170-186 | a single-text call is one access of the list, which ties Embed to the recency theorems |
| ConcurrentEmbed.StepKeepsOk | internal/semantic/cache.go:91-167 | every locked get or put and every provider answer, of any call, keeps the invariant of list and calls |
| ConcurrentEmbed.EveryCallAgrees | internal/semantic/cache.go:91-138 | in every interleaving a call that returns has the provider's vector at every position and asked at most once, for distinct texts of its own |
| ConcurrentEmbed.ListIsAlwaysRecency | internal/semantic/cache.go:140-167 | after every step of every interleaving the list is the cap most recently touched digests, none twice |
| ConcurrentEmbed.NoCallIsStuck | internal/semantic/cache.go:91-138 | a call that has neither returned nor failed always has a step to take |
| ConcurrentArrays.StepKeepsOwned | internal/semantic/cache.go:91-176 | every step, the copies made outside the lock and the callers' writes included, keeps each array for the one use it was made for |
| ConcurrentArrays.OutputsAreIsolated | internal/semantic/cache.go:132-134 | after any interleaving no array is at two output positions, of one call or of two, and none is one the cache keeps, a call has read from it, is about to put there, or the provider gave |
| ConcurrentArrays.ScribblesArePrivate | internal/semantic/cache.go:132-134 | a caller that writes to what it was given changes no other output of any call and nothing in use inside |
| ConcurrentArrays.StepSimulates | internal/semantic/cache.go:99-136 | each step on arrays is one step of the interleavings on values, or none |
| ConcurrentArrays.RunsLookSimple | internal/semantic/cache.go:91-176 | so every run on arrays, with copies outside the lock and callers writing, looks like a run on values |
| ConcurrentArrays.EveryCallerGetsItsVectors | internal/semantic/cache.go:91-138 | and what a call's arrays hold when it returns are the provider's vectors for its texts |
| SemanticUpsert.NewCachingEmbedder | internal/semantic/cache.go:42-67 | a negative capacity leaves the provider unwrapped, zero gives the default size, and a new cache is empty |
| SemanticUpsert.Classify | internal/semantic/service.go:66-84 | lists exactly the records without a vector in order, or stops at the first unacceptable record |
| SemanticUpsert.Assemble | internal/semantic/service.go:104-123 | every record in its place, with the embedded vectors put back where they came from |
| SemanticUpsert.Upsert | internal/semantic/service.go:64-123 | each record reaches the driver with the vector given or that of its own content, of the namespace dimension, for any duplicates and any cache that can be trusted, and the cache can be trusted with the next batch; every refusal has its cause |
| Aad.ValueAadReads | internal/kv/encrypted.go:51-60 | a decoder of the varint prefixes recovers block, namespace and key |
| Aad.PayloadAadReads | internal/episodic/encrypted.go:56-63 | the decoder recovers block and namespace |
| Aad.LocationsAreBound | internal/kv/encrypted.go:42-60 | distinct locations never share associated data, and no kv data equals episodic data |
| Aad.TenantsMeet | internal/auth/capability.go:127-132 | two tenants can reach one storage namespace exactly when one, closed by the separator, begins the other |
| Aad.TenantsAreBound | internal/auth/capability.go:115-132 | for tenants free of the separator, tenant, namespace and key are all bound |
| Aad.SeparatorInTenantCollides | internal/auth/capability.go:115-132 | with the separator in a tenant they are not |
| Keyring.NewKeyring | internal/encryption/encryption.go:65-95 | refuses exactly the first faulty spec with its fault, and otherwise holds every key under its tag with the first one active |
| Keyring.SealedShape | internal/encryption/encryption.go:99-112 | an envelope is version, tag, nonce and ciphertext in that order and names the active key |
| Keyring.OpensWhatWasSealed | internal/encryption/encryption.go:97-152 | any keyring that still has the sealing key opens the value; a sealed empty one comes back as nil |
| Keyring.PlaintextReadsExactly | internal/kv/encrypted.go:76-89 | with plaintext reads allowed a plaintext is read as it is if and only if it is not shaped like an envelope |
| Keyring.RetiredKeyFails | internal/encryption/encryption.go:140-145 | a keyring without the sealing key's tag refuses it with that tag |
| Keyring.RingOrderIsIrrelevant | internal/encryption/encryption.go:48-53 | keyrings over the same keys in any order open alike |
| Keyring.SealedStands | internal/kv/encrypted.go:62-89 | what a wrapper seals it reads back as the plaintext, up to nil versus empty |
| Keyring.StillStands | internal/kv/encrypted.go:76-89 | a rebuilt wrapper that keeps the named key, or still allows plaintext, reads a stored value the same |
| KvStore.InKeyOrderIsSorted | internal/kv/drivers/memory/memory.go:331-352 | the records a MultiGet collects and sorts are those found, in ascending key order |
| KvStore.ConditionalPut | internal/kv/drivers/memory/memory.go:181-242 | a write succeeds exactly when unconditional or naming the current version (zero when absent or expired), moves it up by one and keeps the creation time of a live record |
| KvStore.PutThenGet | internal/kv/drivers/memory/memory.go:137-242 | what was written is read back until it expires, whatever the write evicted, and other records are evicted whole or untouched |
| KvStore.DeleteThenGet | internal/kv/drivers/memory/memory.go:297-329 | a delete removes its key alone and reports whether it was readable |
| KvStore.ScanPages | internal/kv/drivers/memory/memory.go:353-390 | a scan's keys are live, after the cursor, with the prefix, ascending and, unlimited, all of them |
| KvEncrypted.MemoryDriver.MultiGet | internal/kv/drivers/memory/memory.go:331-352 | reads each distinct key once, through Get with its side effects, and returns the found records in key order |
| KvEncrypted.EncryptedDriver.Get | internal/kv/encrypted.go:91-100 | the backend's read, opened, with the backend's errors passed through |
| KvEncrypted.EncryptedDriver.Put | internal/kv/encrypted.go:115-131 | stores the sealed value and answers with the opened record |
| KvEncrypted.EncryptedDriver.OpenInPlace | internal/kv/encrypted.go:107-111 | opens every record in place, or reports the first that does not open |
| KvEncrypted.EncryptedDriver.MultiGet | internal/kv/encrypted.go:102-113 | the backend's batch, opened in place |
| KvEncrypted.EncryptedDriver.ScanThrough | internal/kv/encrypted.go:133-141 | yields opened records in order until the caller stops or one does not open |
| KvRefinement.StepStands | internal/kv/encrypted.go:91-141 | one call through the wrapper keeps the stores in correspondence and answers as the plain driver does |
| KvRefinement.EncryptionIsInvisible | internal/kv/encrypted.go:62-141 | over every run of calls and rebuilds that keep the needed keys, all answers are the plain driver's |
| KvRefinement.InvisibleFromTheStart | internal/kv/encrypted.go:62-141 | in particular every run from an empty store |
| KvRefinement.MigrationStarts | internal/kv/encrypted.go:76-82 | with plaintext reads allowed, a store of plaintext that never looks like an envelope stands for itself |
| KvRefinement.MigrationStartsExactly | internal/kv/encrypted.go:76-89 | it stands for itself if and only if none of it looks like an envelope |
| KvRefinement.EnvelopeShapedPlaintextFails | internal/encryption/encryption.go:118-145 | plaintext shaped like an envelope of a key the ring lacks is refused with that key's tag |
| KvRefinement.LegacyShrinks | internal/kv/encrypted.go:115-131 | no call adds plaintext, and a successful write or delete removes that of its key |
| KvRefinement.RewrittenIsGone | internal/kv/encrypted.go:115-131 | over a run, every key once rewritten or deleted holds no plaintext at the end |
| KvRefinement.MigrationCompletes | internal/kv/encrypted.go:76-131 | reads follow the logical values throughout a migration, and once every plaintext key is rewritten or deleted the flag can go off with nothing changed |
| KvRefinement.FlagMattersForLegacyOnly | internal/kv/encrypted.go:80-82 | turning the flag off changes a read if and only if the value is still plaintext |
| EpisodicLaws.AppendKeepsOrder | internal/episodic/drivers/memory/memory.go:126-199 | a new event gets the next cursor, a replay changes nothing, and cursors stay strictly ascending |
| EpisodicLaws.ExpireKeepsOrder | internal/episodic/drivers/memory/memory.go:255-318 | retention keeps the order and never lets a cursor come round again |
| EpisodicLaws.SupersededExactly | internal/episodic/drivers/memory/memory.go:169-180 | with ids used once, an append tombstones exactly the live events it names |
| EpisodicLaws.FilterExactly | internal/episodic/drivers/memory/memory.go:208-236 | a range is exactly the matching events, in cursor order |
| EpisodicEncrypted.EncryptedLog.Append | internal/episodic/encrypted.go:85-102 | seals the payload, appends, and opens whatever event comes back, a replayed one included |
| EpisodicEncrypted.EncryptedLog.YieldThrough | internal/episodic/encrypted.go:104-121 | yields opened events in order until the caller stops or one does not open |
| EpisodicRefinement.StepStands | internal/episodic/encrypted.go:85-121 | one append, range, tail replay or expiry through the wrapper keeps the correspondence and answers alike |
| EpisodicRefinement.EncryptionIsInvisible | internal/episodic/encrypted.go:56-121 | over every run with rotation all answers are those of an unencrypted log |
| EpisodicRefinement.DedupKeysStayIndexed | internal/episodic/drivers/memory/memory.go:126-199 | every dedup key names a stored event after every call, so a replay always finds one |
| EpisodicRefinement.StepHolds | internal/episodic/drivers/memory/memory.go:126-318 | a dedup key goes on naming the event it first wrote, unless a hard expiry forgets the key |
| EpisodicRefinement.RetryReturnsTheFirst | internal/episodic/encrypted.go:85-102 | a retried append changes nothing and returns the first event with the first payload, whatever was rotated in between |
| Fusion.Accumulate | internal/semantic/hybrid.go:32-37 | the loops give exactly the ids of the lanes, each its sum of reciprocal ranks |
| Fusion.RRFFuse | internal/semantic/hybrid.go:31-52 | returns the ranking of all distinct ids by score and id, cut to topK, with their scores |
| Fusion.RankingIsUnique | internal/semantic/hybrid.go:38-47 | there is one ranking only, whatever the map order and the sort |
| Fusion.CutKeepsTheBest | internal/semantic/hybrid.go:48-50 | when something is dropped exactly topK ids are kept, and no dropped id precedes a kept one |
| Fusion.LaneOrderIsIrrelevant | internal/semantic/hybrid.go:33-37 | permuting the lanes changes nothing |
| Fusion.Dominance | internal/semantic/hybrid.go:31-47 | an id at or above another in every lane and above it in one precedes it |
| Fusion.OneLane | internal/semantic/hybrid.go:31-52 | fusing one duplicate-free lane gives it back |
| Fusion.Consensus | internal/semantic/hybrid.go:22-37 | among any number of duplicate-free lanes an id two of them rank in their first 61 outscores every id only one holds |
| Fusion.ConsensusOfTwo | internal/semantic/hybrid.go:18-51 | for two lanes of at most 61 ids every id in both precedes every id in one |
| Fusion.ConsensusIsTight | internal/semantic/hybrid.go:22-37 | an id below rank 61 in both lanes never outscores the head of one lane, and ties with it exactly when at rank 62 in both |
| Fusion.ConsensusExactly | internal/semantic/hybrid.go:22-37 | between two lanes of any depth an id of both, ranked i and j from zero, outscores an id of one ranked k if and only if (61 + i)(61 + j) < (61 + k)(122 + i + j) |
| Fusion.ConsensusFailsAtSixtyTwo | internal/semantic/hybrid.go:22-47 | two lanes of 62 ids exist in which an id of both follows an id of one |
| Hybrid.RankHybrid | internal/semantic/drivers/memory/memory.go:307-340 | the two lanes are the best candidates by their own scores, and the hits are the cut of their fusion with its scores |
| Hybrid.HybridIsDetermined | internal/semantic/drivers/memory/memory.go:307-340 | the hits depend on the candidates alone, not on the map's order |
| Hybrid.HybridConsensus | internal/semantic/drivers/memory/memory.go:307-340 | up to a depth of 61 a hit of both lanes comes before, and scores above, every hit of one |
| ArtifactLayout.DirOf | internal/artifact/drivers/fs/fs.go:260-275 | a validated artifact lives in its shard of its namespace, or in the base directory when its id begins with ".." |
| ArtifactLayout.FilesAreSharedExactlyOnCollision | internal/artifact/drivers/fs/fs.go:260-287 | two validated artifacts share a file if and only if their names collide in one of the listed ways |
| ArtifactLayout.DirectoriesAreBlockedExactly | internal/artifact/drivers/fs/fs.go:260-275 | a file of one artifact stands where a directory of another has to be if and only if the first id begins with "..", the second does not, and the namespace of the second is the name of such a file |
| ArtifactLayout.PlainIdsAreDisjoint | internal/artifact/drivers/fs/fs.go:260-287 | plain ids of any namespaces occupy disjoint files |
| ArtifactLayout.EscapingIdsCollide | internal/artifact/drivers/fs/fs.go:267-271 | an id beginning with ".." names the same file in every namespace |
| ArtifactLayout.ThreeDotsAreAnId | internal/artifact/validate.go:33-44 | such ids pass validation |
| ArtifactFs.WindowIsTheRange | internal/artifact/drivers/fs/fs.go:124-133 | below 2^63 a reader delivers bytes offset to the smaller of offset + length and the size, length 0 meaning to the end |
| ArtifactFs.BeyondInt64 | internal/artifact/drivers/fs/fs.go:124-133 | from 2^63 on an offset is refused and a length reads as nothing |
| ArtifactFs.PutThenOpen | internal/artifact/drivers/fs/fs.go:57-135 | a successful upload is read back with its metadata at every offset and length |
| ArtifactFs.FailedPut | internal/artifact/drivers/fs/fs.go:73-106 | a failed upload changes nothing unless it reached the metadata; then the bytes are gone and everything else but a temporary file is as it was |
| ArtifactFs.FailedOverwriteOrphansMetadata | internal/artifact/drivers/fs/fs.go:101-104 | after such a failure over an existing artifact its metadata stays, it cannot be opened, and Delete does not find it |
| ArtifactFs.DeletedIsGone | internal/artifact/drivers/fs/fs.go:233-251 | Delete reports whether the bytes were there, and afterwards there are none |
| ArtifactFs.OpStaysInside | internal/artifact/drivers/fs/fs.go:57-171 | no call changes a file outside its artifact's footprint, whatever fails |
| ArtifactFs.CallsElsewhereAreInvisible | internal/artifact/drivers/fs/fs.go:57-287 | any sequence of calls on artifacts that share no file with one, and of which neither has a file where the other needs a directory, leaves its Stat and Open as they were |
| ArtifactFs.PlainArtifactsAreIndependent | internal/artifact/drivers/fs/fs.go:57-287 | for plain ids, any calls on any other artifacts |
| ArtifactTree.CallsMayLeave | internal/artifact/drivers/fs/fs.go:57-106 | a call, whatever fails, makes at most its artifact's directories and changes at most its three files |
| ArtifactTree.SeparateExactly | internal/artifact/drivers/fs/fs.go:137-156 | calls on one artifact never change what opening a file of another finds, be it nothing, the file, a directory or no directory before it, if and only if they share no file and neither blocks the other |
| ArtifactTree.IdsCanBlockANamespace | internal/artifact/drivers/fs/fs.go:66-70 | the data of "..x" makes every look into the namespace "..x" an error other than not-found |
| ArtifactFs.SidecarNamesInterfere | internal/artifact/drivers/fs/fs.go:272-273 | an id ending in ".json" stores its bytes over the metadata of the id before it |
| FsDriver.Driver.Put | internal/artifact/drivers/fs/fs.go:57-106 | the temp-and-rename steps have exactly the specified effect for every fault |
| FsDriver.Driver.Copy | internal/artifact/drivers/fs/fs.go:73-83 | copies all the reader delivers into the temporary file alone, or reports which side failed |
| FsDriver.Driver.WriteMeta | internal/artifact/drivers/fs/fs.go:277-287 | metadata is replaced as a whole by a rename, and a failure leaves at most the temporary file behind |
| FsDriver.Driver.PatchMeta | internal/artifact/drivers/fs/fs.go:159-171 | rewrites hash and size of the stored metadata and keeps the rest |
| FsDriver.Driver.Delete | internal/artifact/drivers/fs/fs.go:233-251 | removes bytes, then metadata, for every fault |
| ArtifactSteps.StepKeepsOk | internal/artifact/drivers/fs/fs.go:57-106 | every system call of every concurrent upload, patch, deletion and read, of any artifacts of the directory, keeps the invariant |
| ArtifactSteps.UploadsAreAtomic | internal/artifact/drivers/fs/fs.go:57-106 | after any interleaving of calls on any artifacts of the directory, none of them temp-named or with its metadata at this artifact's path, the data path is absent or holds one complete upload to it, and every finished reader got one |
| ArtifactSteps.OrdinaryNamesAreAtomic | internal/artifact/drivers/fs/fs.go:260-287 | outside the shard of the temporary files, and not named as a metadata file, an artifact is atomic whatever is called in its directory |
| ArtifactSteps.AtomicExactly | internal/artifact/drivers/fs/fs.go:73-92 | and it is if and only if it is such |
| ArtifactSteps.SidecarNamesTear | internal/artifact/drivers/fs/fs.go:272-287 | another id's metadata can be left where an artifact named as its metadata file has its data |
| ArtifactSteps.TempShardTears | internal/artifact/drivers/fs/fs.go:73-92 | in the shard of the temporary files a deletion can make two uploads share a temporary file, and one puts the other's unfinished data in place |
| ArtifactSteps.FailedUploadLeavesNoTrace | internal/artifact/drivers/fs/fs.go:73-92 | an upload that has not renamed its data, its reader having failed included, has changed no file but temporary ones: neither data nor metadata, its own or another artifact's |
| ArtifactDurability.SuccessLastsExactly | internal/artifact/drivers/fs/fs.go:88-106 | at any upload's data rename in any run: in every continuation that neither replaces nor deletes the artifact its acknowledged data stays, if and only if no other upload to it is then between its own rename and its end |
| ArtifactDurability.SettledLasts | internal/artifact/drivers/fs/fs.go:88-106 | when none is, it stays in every continuation |
| ArtifactDurability.UnsettledIsLost | internal/artifact/drivers/fs/fs.go:101-104 | when one is, it can be acknowledged and then removed, by steps of which none fails but the rename of a metadata file the other has taken |
| ArtifactDurability.FailedUploadNeverShows | internal/artifact/drivers/fs/fs.go:73-92 | over any run of any calls none of which is on a temp-named id, an upload that never renames its data changes no file but temporary ones at any of its steps |
| ArtifactList.List | internal/artifact/drivers/fs/fs.go:173-231 | yields the matching metadata sorted by id, cut to the limit, to a caller that may stop; a directory that cannot be read is all it reports, before anything is yielded |
| ArtifactList.CallsKeepTidy | internal/artifact/drivers/fs/fs.go:57-171 | calls on plain ids, faults included, leave only metadata files that say whose they are |
| ArtifactList.MatchingExactly | internal/artifact/drivers/fs/fs.go:186-217 | in a tidy store an id is listed if and only if it can be read, matches the filter, lies after the cursor and does not live in the base directory |
| ArtifactList.EscapingIdsAreNotListed | internal/artifact/drivers/fs/fs.go:177-193 | artifacts in the base directory are in no listing |
| ArtifactList.ListingIsDetermined | internal/artifact/drivers/fs/fs.go:184-219 | in a tidy store List yields every matching id once, ascending, with its metadata, whatever order the directories are read in |
| ArtifactList.ListingEntryIsIndependent | internal/artifact/drivers/fs/fs.go:173-231 | calls on other artifacts leave an artifact's place in the listing as it was |
| ArtifactList.RestOfListing | internal/artifact/drivers/fs/fs.go:203-205 | with the last id of a page as the cursor the listing is exactly what is left |
| ArtifactList.PaginationIsComplete | internal/artifact/drivers/fs/fs.go:173-231 | pages of any positive sizes end and add up to the whole listing |
| ArtifactStream.ClientPut | sdk/typescript/src/client.ts:379-404 | the chunks carry the data in order, none empty or over 64 KiB and all but the last full |
| ArtifactStream.Pump | internal/artifact/service.go:80-110 | whatever the reads return, the pipe delivers the chunks' bytes, counted and hashed, and fails exactly on a broken stream or a message out of place |
| ArtifactStream.ServicePut | internal/artifact/service.go:63-147 | files and answer after an upload are the driver's Put over the whole payload and the patch of size and hash |
| ArtifactStream.UploadStores | internal/artifact/service.go:112-136 | a successful upload reads back as sent, with its exact size and hash unless writing them back failed |
| ArtifactStream.BrokenUploadChangesNothing | internal/artifact/service.go:84-127 | a stream that breaks off or is out of order changes nothing and fails |
| ArtifactStream.ServiceGet | internal/artifact/service.go:156-204 | sends exactly the requested range in nonempty chunks of at most 64 KiB, or the error of the open |
| ArtifactStream.ClientGet | sdk/typescript/src/client.ts:407-428 | reassembles the chunks into one array |
| ArtifactStream.RoundTrip | internal/artifact/service.go:59-204 | through client, service and driver a download returns the requested range of what was uploaded, under the id given or the one generated, and the size is exact |
| TokenBucket.IsATokenBucket | internal/policy/rule_engine.go:86-92 | counted in tokens the limiter gains its rate up to its burst, and an event needs and takes one |
| TokenBucket.WorthBounds | internal/policy/rule_engine.go:86-92 | tokens worth no more than a full bucket and the time gone by number at most burst + rate * time |
| Rules.Validate | internal/policy/rule_engine.go:218-248 | reports exactly the first fault, and otherwise names are distinct and nonempty, effects known and rates positive |
| Rules.RulesKeepApart | internal/policy/rule_engine.go:95-118 | differently named rules without a "\|" in their names never share a bucket, whatever the requests |
| Rules.SharedExactly | internal/policy/rule_engine.go:95-118 | two requests share a rule's bucket if and only if they agree on every enabled dimension, when of those callers name at most one holds a "\|" |
| Rules.TenantsShareExactly | internal/policy/rule_engine.go:95-118 | two tenants can come to share a bucket kept by tenant if and only if the operations agree and one tenant, with the tag of the next dimension after it, begins the other; when there is none, if they are equal |
| Rules.CallersShareExactly | internal/policy/rule_engine.go:95-118 | two callers, of given tenants and agents, can if and only if the operations agree and what precedes the namespace in one key begins what precedes it in the other; without namespaces, if it is equal |
| Rules.BarInTenantCollides | internal/policy/rule_engine.go:105-117 | the tenants "x\|a=y" and "x" are such a pair for every bucket kept by tenant and agent |
| Rules.RulesShareExactly | internal/policy/rule_engine.go:95-118 | for any two rules, blocks and operations: some requests share a bucket if and only if the constant pieces of the keys, name and tags up to the operation, can be filled to one string |
| Patterns.CanMeetExactly | internal/policy/rule_engine.go:105-118 | two lists of pieces can be filled to one string if and only if first pieces begin and last pieces end alike, or, where one leaves nothing open, it fits the other |
| Rules.CallersRulesShareExactly | internal/policy/rule_engine.go:95-118 | for buckets kept by tenant or agent: if and only if one name with its first tag begins the other and the operations agree where both are kept by them |
| Rules.BarInRuleNameCollides | internal/policy/rule_engine.go:95-118 | requests of a rule with a bucket by tenant and of one with a single bucket share it if and only if the second is named after the first and the tenant |
| Rules.LoopIsFirstDeciding | internal/policy/rule_engine.go:49-77 | from any point of the scan, loop and declarative reading agree on decision and buckets |
| Rules.DecisionIsFirstDeciding | internal/policy/rule_engine.go:49-77 | the decision is that of the first matching allow, deny, exhausted rate limit or exceeded cap, else the default |
| Rules.ChargedBuckets | internal/policy/rule_engine.go:60-65 | each matching rate limit strictly before the deciding rule has lost exactly one token |
| Rules.OtherBuckets | internal/policy/rule_engine.go:60-65 | every other bucket, that of an exhausted deciding rule included, is as it was |
| RateBound.TokensAreBounded | internal/policy/rule_engine.go:79-93 | in any window of any interleaving at most burst + rate * T tokens leave a bucket |
| RateBound.AllowedAreBounded | internal/policy/rule_engine.go:60-65 | so at most that many requests that share a bucket and are not let through by an earlier allow are allowed |
| Engine.RuleEngine.Evaluate | internal/policy/rule_engine.go:49-77 | the loop over the rules has the decision and the buckets of its specification |
| Engine.RuleEngine.TakeToken | internal/policy/rule_engine.go:79-93 | charges the one bucket of its key, made full on first use |
| Engine.NewRuleEngine | internal/policy/rule_engine.go:31-39 | refuses exactly the faulty specifications |
| PolicyInterceptor.PolicyUnary | internal/interceptor/policy.go:56-81 | a mapped call is evaluated once and handled exactly when allowed, else refused with the code of its decision |
| PolicyInterceptor.PolicyStream.RecvMsg | internal/interceptor/policy.go:157-168 | at every point of a stream the engine has been consulted once if a message has arrived and not at all otherwise |
| PolicyInterceptor.InterceptStream | internal/interceptor/policy.go:98-144 | for every message sequence and every handler that returns on it: one evaluation at most, on the first message as a unary call would be, and no success without one |
| PolicyInterceptor.SafeExactly | internal/interceptor/policy.go:129-168 | under every accepted policy and on every stream success means the first message was allowed, if and only if the handler never returns success on a view it comes to that holds a refusal |
| PolicyInterceptor.SuccessWasAllowed | internal/interceptor/policy.go:129-142 | if the handler fails when refused, success means the decision was to allow |
| PolicyInterceptor.UploadsAreChecked | internal/interceptor/policy.go:129-142 | the handler that receives until a receive fails, as an upload does, succeeds on a stream that ends only if the policy allowed the first message |
| PolicyInterceptor.RefusalCanBeIgnored | internal/interceptor/policy.go:157-168 | otherwise it need not |

## Left out

- RRF scores, vectors, token counts and limiter times are real numbers; floating-point rounding is not modelled.
- Fusion.RRFFuse: scores are exact sums, so ties that rounding would break or make are not modelled.
- KvEncrypted.MemoryDriver.Put: which records an over-full namespace evicts is a parameter that may depend on everything but the values; the heat arithmetic of the in-memory driver is not modelled.
- KvStore keeps one map from (namespace, key); the nested maps, the sweep's timer and the driver's metrics are not modelled. Each call reads the clock once.
- KvEncrypted.EncryptedDriver.ScanThrough: takes the records the backend yields as a snapshot; that a Scan's caller may call the driver again meanwhile is not modelled.
- EpisodicEncrypted.EncryptedLog.YieldThrough: covers ranges and the history a tail replays first; a tail's live phase, with its channels and slow subscribers, is not modelled.
- TokenBucket stands for golang.org/x/time/rate, whose source is not part of this model; its behaviour when the clock goes back is not modelled.
- Engine.RuleEngine.Evaluate: limiters are values in the bucket map rather than shared objects; concurrent evaluations are modelled by RateBound, a rule at a time.
- Decision reasons are data; their wording is not modelled.
- FsDriver.Driver.Put: removing a failed upload's temporary file, and the data after a failed metadata write, is taken to succeed; directories are not modelled beyond the paths of files, so a directory in a file's place is one of the faults.
- ArtifactFs.CallsElsewhereAreInvisible: Stat, Open, Delete and List know files only; the errors other than not-found that a file in a directory's place, or a directory in a file's, gives them are those of ArtifactTree, and the calls that can cause them are excluded here.
- ArtifactTree.SeparateExactly: the temporary file of an upload under way is not among an artifact's files.
- ArtifactSteps.UploadsAreAtomic: speaks of data only; concurrent uploads share one temporary metadata file, and what metadata they leave is not claimed.
- ArtifactStream.ServicePut: the pipe's two goroutines are run in the order their rendezvous forces; a driver that fails before reading leaves the sender waiting, which is not modelled.
- ArtifactStream.ServiceGet: read errors of an open file are not modelled.
- ConcurrentArrays.OutputsAreIsolated: the provider is taken to give each call arrays of its own, which it does not keep; a nil slice has an address, which nobody can write.
- SemanticUpsert.Upsert: the driver's own work, versions and validity times are not modelled.
- Authorization prologues, capability matching, registries, configuration, logging, metrics, transport and process lifecycle.
- Lease, graph, Postgres, S3 and other backends.
- Tokenize and TermOverlap, whose term splitting rests on Unicode tables; the hybrid lane takes overlap counts as given.
- The table from gRPC methods to operations; a mapping is a parameter.
