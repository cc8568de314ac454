# Verification of the distributed object store

A Dafny model of a content-addressed, replicated object store, and proofs about it. The store cuts
files into chunks named by the SHA-256 of their bytes, places each chunk on the first N distinct
nodes of a consistent-hash ring, writes with a quorum of W acknowledgements, reads with failover
and a digest check, counts references to chunks across all versions of all files, and reclaims
unreferenced chunks in background sweeps.

`dafny verify dfyconfig.toml` checks everything.

## How the model is organised

Each component that changes state in the program is a class here, with one method for each of the
program's operations. Every method is proved against a function of the old state, and what the
program promises is proved about those functions.

| Files | Component |
|---|---|
| `RingSpec`, `Placement`, `Points`, `Histories`, `Proximity`, `RingOrder`, `HashRing` | the ring: where points lie, stable sort of virtual nodes, preference lists, membership changes |
| `Chunker`, `ChunkStore`, `AtomicWrites` | chunking; one node's store, as operations and as file-system steps |
| `Replication`, `Coordinator`, `Dedup` | quorum writes, failover reads, deletes, deduplicated bytes |
| `Metadata`, `MetadataStore`, `GarbageCollector` | tables and reference counts; a sweep |
| `Server`, `Deployment` | the request handlers; the configuration built from a topology |
| `StoreSystem`, `Stepwise`, `Alone` | the whole store as a step system, and its agreement with the methods |
| `Consistency`, `Lifecycle`, `Refinement`, `Updates` | what clients see of that step system, and its metadata |
| `Reliance`, `Holding`, `GcSafety`, `Availability`, `Cleanup` | acknowledged copies, reclamation and reads in that step system |
| `Overlap`, `EarlierFault` | what goes wrong when sweeps overlap uploads |
| `TokenBuckets`, `RateLimiter` | token buckets and the per-client limiter |

`StoreSystem` holds any number of uploads, updates, downloads and sweeps at once. Its events are the
stretches of the program between two awaits: the block that starts a request, one replica's answer
to a PUT or DELETE, the end of a chunk's quorum wait, one answer to a chunk read, the block that
commits a version and deletes the previous one, the listing of orphans, the reaping of one row. A
fault may rewrite or remove any file at any time, a node may answer a read with anything, a PUT may
be carried out with its answer lost, and a request may die at any await. `Exec` runs a list of events;
the main theorems hold of every list that can run.

- **The steps are the methods.** A POST, PUT, download or sweep whose events run with no other between them leaves
  the nodes, the tables and the reply that the contract of the method `PostFile`, `PutFile`, `Download` or
  `RunGarbageCollection` promises (`Alone`).
- **Refinement.** What clients see of any run is a behaviour of an atomic map from files to bytes.
  A write takes effect at its commit, and a download that returns bytes returns the value the map had when
  the download looked up the current version (`Refinement.RefinesAtomicMap`). The map holds for each file the body that
  was sent with the request committed last, read off the events alone (`Refinement.MapHoldsWritten`).
- **Updates.** However an update is interleaved, unless another version of its file is committed meanwhile, its commit
  makes the new version current and deletes the version that was current when it began, counts included
  (`Lifecycle.UpdateReplacesVersion`). Each file has exactly one live version throughout a run if and only if every
  update that commits replaces the version that it found, as is the case when no two updates of a file overlap
  (`Lifecycle.OneVersionEachIff`, `Lifecycle.SeparateUpdatesKeepOneVersionEach`).
- **Reclamation, exactly.** Every chunk of every live version was acknowledged by W nodes
  (`Reliance.VersionsAreBacked`). In any run, overlapping or not, all those copies stay sound until a fault
  takes them if and only if every delete that arrives hits a copy that nobody relies on
  (`Holding.AlwaysKeptIff`). Live data alone, which may survive on other copies, stays on its quorum if and only
  if every such delete leaves each live version of the chunk a quorum and every commit finds its chunks on one
  (`Holding.AlwaysLiveHeldIff`). Only a fault since a version's own upload counts as an excuse
  (`EarlierFault.EarlierFaultIsNoExcuse`). Reference counts stay exact if and only if every reap finds its count
  still not positive, a check that the program does not make (`Overlap.AlwaysCountedIff`). In all runs counts can only
  be too low, so a sweep lists every unreferenced chunk that has a row (`Overlap.UnreferencedRowsAreListed`).
- **Reclamation is safe without overlap.** In runs where no sweep overlaps an upload of a chunk that it has
  listed and not yet reaped, all these conditions hold: counts are exact, every acknowledged copy of a live
  chunk stays until a fault takes it, and downloads succeed (`GcSafety`, `Availability.DownloadReturns`). The
  hypothesis cannot be dropped: in the thirteen-event run of `Overlap.OverlapLosesLiveData` a live version ends
  up with a chunk stored nowhere. Exact counts are not enough either: in the reordered run of
  `Overlap.ExactCountsDoNotSuffice` every reap is due, the counts are exact throughout, and the chunk is lost
  all the same.
- **Reclamation is complete.** With all replicas reachable, once a sweep that overlapped no upload
  is over, the nodes hold exactly the live chunks (`Cleanup.ExactAfterSweep`).
- **Placement under change.** After any history the ring has the points of exactly the nodes whose last change was an
  addition (`Histories.RingNamesMembers`). Removing a node gives the one-longer list without it; adding one
  inserts it; m changes cost a chunk at most m of its acknowledged replicas, so reads survive
  (`Replication.ReadSurvivesChurn`).
- **Rate limiting.** Tokens are conserved: what is admitted, left and lost at the cap is what was there and what the
  clock earned (`TokenBuckets.TokensAreConserved`). So admissions are bounded above, and calls that the tokens cover
  are all admitted (`TokenBuckets.AffordableCallsAreAdmitted`).

## Where the code and its documentation differ

- The comment at `src/coordinator.js:97-102` says a write does not wait for the slowest replica. The code
  awaits all of them (`src/coordinator.js:105-107`), and so does the model: a chunk's put ends
  only when no answer is outstanding.
- `src/metadataStore.js:127-131` says that a sweep deletes only unreferenced chunks. Reaping is
  unconditional (`src/metadataStore.js:139-141`) and a sweep works from an old list, so this holds
  only under the hypotheses above.
- A superseded version is meant to be deleted by the update that supersedes it. When two updates of a file overlap,
  the one that commits second deletes the version that it remembered, not the one it supersedes. The superseded
  version then stays live for good, unless a third update remembers it and commits. A version can also be stranded by
  the only update that remembered it failing. `Updates.NeverStrandedIff` says exactly when none of this
  happens; `Updates.OverlappingUpdatesStrand` is a run in which it does.
- `src/metrics.js:43-46` describes the counter of saved bytes as the bytes not written because the chunk
  existed. A put that one replica wrote anew and another already had counts nothing, so the counter is an exact
  account if and only if all nodes give each put the same answer (`Dedup.BalancedIffUnanimous`), which
  the order of arrival decides (`Dedup.BalancedIffForeseen`).

## Assumptions

- SHA-256 and the ring's position hash are arbitrary functions, given as parameters. Digests are 64
  hexadecimal digits. Only refinement and the read-back theorems need that byte strings occurring in the run do
  not share a digest.
- Generated file ids, version ids and temporary names are parameters and are fresh.
- One process runs requests and sweeps, so that a block without an await is one step. The repository also starts
  sweeps as a process of their own (`src/gc.js:50-81`, `k8s/coordinator-deployment.yaml:62-71`) and coordinators
  as several workers (`src/cluster.js`); there, statements of one process fall between the statements of
  another's commit block, and nothing is claimed.
- A fault takes a copy from a version or an upload when it turns a sound one into none after the chunk was put, or when
  an acknowledgement was given for a file that is bad. A fault that changes nothing takes nothing.
- A PUT or DELETE that has been answered or has timed out has no later effect.
- Clock readings are parameters, and tokens are real numbers.
- The schema's foreign key (`src/metadataStore.js:18`) is enforced, so a version of an unknown
  file is refused before anything is written.

## Model

| member | source | states |
|---|---|---|
| RingSpec.SortPermutes | src/hashRing.js:45 | the sort that addNode performs keeps every virtual node with its multiplicity |
| RingSpec.SortIsStable | src/hashRing.js:45 | entries at one position keep the order in which they were pushed |
| RingSpec.StableSortIsUnique | src/hashRing.js:45 | any sorted, stable rearrangement is the one the model computes, so nothing depends on the sorting algorithm |
| RingSpec.DecimalReadsBack | src/hashRing.js:42 | the spelling of a point's number is its decimal digits, without leading zeros, and reads back as the number |
| RingSpec.KeysAreDistinct | src/hashRing.js:42 | no two points of a node are hashed from the same key |
| RingSpec.PointAt | src/hashRing.js:41-43 | point i of a node lies at the hash of the node's name, "#vnode" and i spelled out |
| Points.EntriesLieAtKeys | src/hashRing.js:38-46 | on every well-formed ring a member has entries at the positions of its keys and nowhere else |
| Points.PointsAreSpreadIff | src/hashRing.js:41-43 | a member occupies as many different positions as it has virtual nodes if and only if the hash keeps its keys apart |
| Points.InjectiveHashSpreadsPoints | src/hashRing.js:41-43 | it does whenever the hash is injective on the member's keys |
| HashRings.LowerBound | src/hashRing.js:67-74 | the binary search finds the split point: everything before it lies before the key, everything from it on does not |
| HashRings.FirstDistinct | src/hashRing.js:75-86 | the wrapping skip-seen walk yields the first n distinct nodes of the rotated ring |
| HashRings.HashRing.AddNode | src/hashRing.js:38-46 | pushes the node's points and sorts, once; each of the node's keys carries an entry, there are as many as virtual nodes, and the other entries stand as they did; keeps the ring sorted with exactly each member's points |
| HashRings.HashRing.RemoveNode | src/hashRing.js:48-52 | afterwards no entry names the node and the others stand as they did; a stranger changes nothing |
| HashRings.HashRing.PreferenceList | src/hashRing.js:64-87 | search, wrap-around and walk compute the list that the theorems below are about, the empty ring included |
| Proximity.NearestMeaning | src/hashRing.js:5-12 | the distance used below is attained by a point of the node and no point of it is nearer clockwise, modulo 2^32 |
| Proximity.PrefsAreNearest | src/hashRing.js:58-87 | a list has min(n, nodes) distinct members in order of clockwise distance, and no node left out is strictly nearer than one included |
| Placement.PrefsPrefix | src/hashRing.js:58-87 | the list for fewer replicas is a prefix of the list for more |
| Placement.RemovalShiftsList | src/hashRing.js:48-87 | after a removal each list is the old one-longer list without the node, cut to n; a list that lacked the node is unchanged |
| Placement.RemoveUndoesAdd | src/hashRing.js:38-52 | removing a node just added restores the array exactly, position ties included |
| Placement.AdditionInsertsNode | src/hashRing.js:38-46 | an addition leaves a list unchanged or inserts the new node at one place and drops what no longer fits, order kept |
| Placement.AdditionFillsRoom | src/hashRing.js:38-46 | a list that was short of replicas gains the new node |
| Placement.AfterIsWellFormed | src/hashRing.js:31-52 | any history of additions and removals keeps the ring sorted with exactly each member's points |
| Placement.StepLosesAtMostOne | src/hashRing.js:38-52 | one membership change takes at most one node out of any list |
| Placement.ChurnKeepsReplicas | src/hashRing.js:38-87 | after m changes in any order at least k - m of any k listed nodes are still listed |
| Histories.MembersAreAddedLast | src/hashRing.js:38-52 | after any history the members are exactly the nodes whose last change was an addition |
| Histories.RingNamesMembers | src/hashRing.js:38-87 | after any history the ring has entries of exactly those nodes, lists name no other, and a list long enough names them all |
| Histories.RemovalAfterHistory | src/hashRing.js:48-87 | after any history ending in a removal no entry and no list names the node, the other entries stand as they did, and each list is the one-longer list without it, cut to length |
| Histories.AddThenRemoveRestores | src/hashRing.js:38-52 | after any history, adding a node that is not a member and removing it again restores the array and the members exactly |
| Histories.AdditionAfterHistory | src/hashRing.js:38-46 | after any history, adding a member changes nothing, and adding another node leaves a list alone or inserts it at one place, always if the list has room |
| RingOrder.MembersDetermineRing | src/hashRing.js:38-52 | without shared positions across nodes, the member set alone determines the array |
| RingOrder.TiedNodesRememberOrder | src/hashRing.js:45 | two nodes sharing a position give different arrays when added in different orders |
| RingOrder.HistoryFreeIffNoCrossTies | src/hashRing.js:38-52 | all histories ending with the same members build the same array if and only if no two nodes share a position |
| Deployment.ListsAreFull | src/server.js:17-31 | every chunk's list has as many replicas as the factor and the distinct nodes allow, all of them nodes of the topology, which may repeat a node |
| Deployment.BuildServer | src/server.js:17-33 | adding the topology's nodes in turn and cutting both numbers gives a coordinator whose replicas, quorum and digest are those of the configuration that the step system is proved for, and an empty store |
| Deployment.QuorumIsReachableIff | src/server.js:25-31 | all writes can reach their quorum if and only if W, cut to the number of topology entries, is at most N, cut to the number of distinct nodes |
| Chunker.ChunkBuffer | src/chunker.js:26-43 | the offset loop yields the pieces in order, each with its digest, length and sequence number, for any length and positive chunk size |
| Chunker.PiecesRebuild | src/chunker.js:26-43 | the pieces in order spell the buffer |
| Chunker.PiecesAreWellCut | src/chunker.js:31-32 | every piece but the last is full, none is empty or too long |
| Chunker.WellCutIsUnique | src/chunker.js:26-43 | any such cutting of the same bytes is the one computed |
| Chunker.PieceCount | src/chunker.js:31-39 | the number of pieces is the length divided by the chunk size, rounded up |
| Chunker.PiecesSplit | src/chunker.js:26-43 | a buffer split at a multiple of the chunk size chunks to the two lists end to end |
| Chunker.MatchingPartsRebuild | src/chunker.js:18-25 | parts answering to a manifest, repeats included, spell the original buffer if no two byte strings concerned share a digest |
| ChunkStores.ChunkStore.Put | src/chunkStore.js:56-70 | each outcome exactly when it applies: a mismatched or ill-named chunk is refused, an existing file is left as it is and reported deduplicated, otherwise the bytes are stored and no temporary file remains |
| ChunkStores.ChunkStore.Get | src/chunkStore.js:78-87 | verified bytes, absence, corruption or a bad name, each exactly when it applies |
| ChunkStores.ChunkStore.Delete | src/chunkStore.js:89-96 | removes that file and nothing else, and says whether it was there |
| ChunkStores.ChunkStore.Stats | src/chunkStore.js:98-115 | the walk counts every file and its bytes once |
| ChunkStores.PutThenGet | src/chunkStore.js:56-87 | an accepted put makes the chunk readable unless a corrupt copy was already there, which put does not notice; other names are unaffected |
| ChunkStores.DeletedIsAbsent | src/chunkStore.js:78-96 | nothing is found in an empty store or under a deleted name, and other names answer as before |
| AtomicWrites.NothingTornIsVisible | src/chunkStore.js:56-96 | in every interleaving of writers, readers, deletes and crashes, every file at a final path hashes to its name |
| AtomicWrites.RefinesPlainMap | src/chunkStore.js:56-96 | each file-system step is one atomic map operation or none, a finished put leaves its bytes readable, a read never fails the digest check |
| AtomicWrites.PutAlone | src/chunkStore.js:56-70 | the file-system steps of a put can be taken from any state and add up to the put operation, with no temporary file left |
| Replication.ReadIsDetermined | src/coordinator.js:134-164 | the specification of a read allows one outcome for given answers |
| Replication.FoundIffSomeGood | src/coordinator.js:134-164 | for arbitrary answers, bytes come back if and only if some listed node supplies bytes with the right digest |
| Replication.HonestReadOutcome | src/coordinator.js:134-164 | against nodes that work, bytes come back if and only if some listed node has a sound copy, and "missing" if and only if none has and the last node has no copy at all |
| Replication.DeletedReadsAsMissing | src/coordinator.js:134-183 | a chunk deleted from its whole list reads as missing, and no other chunk's answers change |
| Replication.PutResultMeaning | src/coordinator.js:103-124 | for arbitrary deliveries: who acknowledges, that they have the chunk, when the put succeeds, and that the bytes count as saved exactly when every acknowledging node had them before |
| Replication.QuorumReadBack | src/coordinator.js:103-164 | after a successful write, while fewer than W acknowledging nodes misbehave or already held a corrupt copy, a read returns exactly the bytes written |
| Replication.CollisionFreeReadBack | src/coordinator.js:103-164 | the same when the byte strings concerned do not share a digest |
| Replication.ReadThroughOtherList | src/coordinator.js:103-164 | the same through another list that still names all but m acknowledging nodes, while fewer than W - m of them misbehave or already held a corrupt copy |
| Replication.ReadSurvivesChurn | src/coordinator.js:103-164 | after a successful write and m < W membership changes with no data moved, a read returns exactly the bytes written while fewer than W - m acknowledging nodes misbehave or already held a corrupt copy |
| Coordinators.Coordinator.PutToNode | src/coordinator.js:45-64 | an acknowledgement means that the node has a file of that name, written now with these bytes or found there; a lost answer is no acknowledgement though the chunk may be stored; no other node and no other file is touched |
| Coordinators.Coordinator.PutChunk | src/coordinator.js:103-124 | every listed replica is tried, success needs W acknowledgements, each by a listed node that has the chunk, and bytes count as saved exactly when all of those had it before |
| Coordinators.Coordinator.GetChunk | src/coordinator.js:134-164 | the first listed node with matching bytes; otherwise null exactly when the last node tried said not found, else an error |
| Coordinators.Coordinator.DeleteChunk | src/coordinator.js:166-183 | the chunk is gone from exactly the listed replicas that were reached, and their number is returned |
| Coordinators.ReplicasAreNearest | src/coordinator.js:104-104 | a chunk's replicas are the N nodes nearest clockwise of its name, or all nodes if there are fewer |
| Coordinators.AnsweredPutReachesAll | src/coordinator.js:103-124 | with every node answering, a put leaves the chunk on N nodes, or all if there are fewer, and succeeds if and only if that number reaches W |
| Coordinators.ReachedDeleteClearsAll | src/coordinator.js:166-183 | with every node reached, a delete clears those same N nodes |
| Coordinators.DeleteMeaning | src/coordinator.js:166-183 | a delete takes the chunk from exactly the listed nodes that it reaches and leaves every other file alone |
| Dedup.FullListsAreEveryone | src/hashRing.js:58-87 | with as many replicas as nodes every list names all nodes |
| Dedup.PutsConserveBytes | src/coordinator.js:103-124 | over one upload, bytes put equal what each replica gained plus what was credited to deduplication |
| Dedup.UploadsConserveBytes | src/server.js:56-69 | over any sequence of uploads, total bytes uploaded equal each replica's growth plus the credited bytes, repeats within and across files included |
| Dedup.PutConservesIff | src/coordinator.js:103-124 | one put keeps the balance at every node if and only if all nodes had the chunk before or none had |
| Dedup.BalancedIffUnanimous | src/coordinator.js:103-124 | however puts overlap, bytes uploaded equal each node's growth plus the credited bytes if and only if every put that carries bytes got the same answer from all nodes |
| Dedup.BalancedIffForeseen | src/coordinator.js:103-124 | the same from the nodes and the order of arrival alone: all nodes agree, for every put that carries bytes, on whether it is the first to bring them a chunk that they did not have |
| Dedup.OverlappingUploadsGoUncredited | src/coordinator.js:113-116 | two overlapping uploads of one chunk: each node grows by one copy, nothing is credited, two copies were uploaded, so the balance fails |
| MetadataStores.MetadataStore.CreateFile | src/metadataStore.js:59-64 | adds a file without a current version and changes nothing else |
| MetadataStores.MetadataStore.CommitVersion | src/metadataStore.js:80-100 | adds the version with its manifest rows in order, counts every chunk as often as it occurs, and points the file at it; a version of an unknown file changes nothing |
| MetadataStores.MetadataStore.GetVersion | src/metadataStore.js:107-114 | the manifest comes back complete and in order |
| MetadataStores.MetadataStore.GetRefcount | src/metadataStore.js:122-125 | a chunk without a row counts zero |
| MetadataStores.MetadataStore.ListOrphanedChunks | src/metadataStore.js:132-137 | exactly the rows with count at most zero, each once |
| MetadataStores.MetadataStore.ReapOrphanedChunk | src/metadataStore.js:139-141 | removes the row whatever its count |
| MetadataStores.MetadataStore.DecrementRefcounts | src/metadataStore.js:143-146 | takes one off for each occurrence; a missing row stays missing |
| MetadataStores.MetadataStore.DeleteVersion | src/metadataStore.js:156-162 | uncounts and removes that version's rows; an unknown version changes nothing |
| Metadata.BumpCounts | src/metadataStore.js:89-96 | after the upserts of a manifest every count has grown by the chunk's multiplicity in it |
| Metadata.CurrentsStayLiveIff | src/metadataStore.js:59-162 | a new file points at no version, a commit points it at the version just added, and a deletion leaves every current version live if and only if it deletes none |
| Metadata.CommitKeepsCounts | src/metadataStore.js:80-100 | a commit keeps every count equal to the chunk's multiplicity over all live manifests |
| Metadata.DeleteKeepsCounts | src/metadataStore.js:156-162 | deleting any version, live or not, keeps the counts exact |
| Metadata.ReapKeepsCountsIff | src/metadataStore.js:139-141 | a reap keeps the counts exact if and only if the chunk is unreferenced |
| Metadata.OrphansAreUnreferenced | src/metadataStore.js:127-137 | with exact counts, the orphans are exactly the rows that no live version of any file references |
| Metadata.CountsAddUp | src/metadataStore.js:31-35 | with exact counts none is negative and they add up to the total length of the live manifests |
| GarbageCollector.SweepInAnyOrder | src/gc.js:26-38 | the order of the orphan list does not matter to what the nodes hold afterwards |
| GarbageCollector.RunGarbageCollection | src/gc.js:21-46 | deletes every listed orphan from exactly the listed replicas that are reached, reaps all the rows and no other, reports how many chunks some replica was reached for |
| GarbageCollector.ReportCoversDeletions | src/gc.js:26-37 | every chunk that loses a copy is counted as reclaimed, and none is that no replica was reached for |
| Servers.Server.UploadChunks | src/server.js:56-69 | chunks go out in order until one misses its quorum; what the nodes hold in either case |
| Servers.Server.PostFile | src/server.js:72-79 | on success the new file's version has the body's manifest; on a failed chunk the tables are untouched |
| Servers.Server.PutFile | src/server.js:82-110 | an unknown file touches nothing; on success the new version is committed and the remembered one deleted; on a failed chunk the tables are untouched |
| Servers.Server.Download | src/server.js:120-136 | the bytes of all chunks in manifest order, or a failure if any chunk is missing |
| Servers.ReplyMatchesManifest | src/server.js:129-135 | a reply carries bytes if and only if every chunk has a listed node with matching bytes, and then they are parts that answer to the manifest, in order; otherwise it is a failure |
| Servers.UploadThenDownload | src/server.js:56-136 | an upload followed by a download gives the input back, repeated and previously stored chunks included, while for each chunk fewer than W nodes misbehave or had a corrupt copy of it |
| Consistency.CommitEffect | src/server.js:75-78 | in a reachable state a commit adds one version, removes at most the remembered one, never the new one, and makes the new one current |
| Consistency.RunsAreConsistent | src/server.js:82-110 | in every run every file's current version is a live version of that file: deleteVersion never removes it |
| Refinement.StepMatches | src/server.js:56-136 | every step of the store is one step of the atomic map, or none |
| Refinement.RefinesAtomicMap | src/server.js:56-136 | in every interleaving clients see an atomic map: writes at their commit, and a download that returns bytes returns the value at its look-up, never a mix of versions, never corrupt bytes |
| Refinement.CurrentManifestIsComplete | src/server.js:72-110 | in every run, digests colliding or not, each file's current manifest is complete, in order, and spells the body sent with the request committed last |
| Refinement.MapHoldsWritten | src/server.js:72-110 | the atomic map that clients see holds, for each file, the body sent with the request committed last |
| Lifecycle.UploadIsAsBegun | src/server.js:72-92 | in every run each upload in progress has the body and the file that were sent, and remembers the version that was current when it began |
| Lifecycle.UpdateReplacesVersion | src/server.js:82-110 | an update of any body, interleaved with anything but another commit to its file, makes its version current and deletes the one that it found current, manifests counted and uncounted |
| Lifecycle.UpdateMovesCounts | src/server.js:82-110 | where counts were exact, each has changed by the chunk's multiplicity in the new manifest less that in the old |
| Lifecycle.OneVersionEachIff | src/server.js:82-110 | in any run each file has exactly one live version throughout if and only if every update that commits replaces the version that it found |
| Lifecycle.SeparateUpdatesKeepOneVersionEach | src/server.js:82-110 | so it is when no two updates of a file overlap, whichever of them fail |
| Stepwise.StepwiseReadIsGetChunk | src/coordinator.js:134-164 | a chunk's read, interleaved with anything, ends as getChunk does on the same answers |
| Stepwise.StepwisePutIsPutChunk | src/coordinator.js:103-112 | a chunk's put, its replicas answering in any order, leaves the disks and acknowledgements that putChunk does, and goes on exactly when that would succeed |
| Alone.LonePostIsPostFile | src/server.js:56-79 | a POST's events, run with no other between them, leave the nodes and tables that the method promises, whether all chunks reach their quorum or not |
| Alone.LonePutIsPutFile | src/server.js:56-110 | the same for a PUT, which remembers the file's current version; an unknown file changes nothing |
| Alone.LoneSweepIsRunGarbageCollection | src/gc.js:21-46 | the same for a sweep, in whatever order it lists the orphans and whichever nodes it reaches |
| Alone.LoneDownloadIsDownload | src/server.js:120-136 | a download's events, run with no other between them, end with the method's reply |
| Reliance.VersionsAreBacked | src/coordinator.js:103-112 | in every run each chunk of each live version was acknowledged by W nodes of its list, and so were the chunks that uploads have put |
| Holding.StepKeepsKeptIff | src/gc.js:26-27 | a step keeps every acknowledged copy, apart from those a fault takes, if and only if it is not a delete of one that somebody relies on |
| Holding.AlwaysKeptIff | src/gc.js:21-46 | in any run, overlapping or not, every acknowledged copy behind a live version or an upload in progress stays sound until a fault takes it, if and only if every delete that arrives hits a copy that nobody relies on |
| Holding.StepKeepsLiveHeldIff | src/gc.js:26-27 | a step keeps live data on its quorum if and only if it is no delete that leaves a live version too few holders and no commit that finds too few |
| Holding.AlwaysLiveHeldIff | src/gc.js:21-46 | the same over any run, for live data alone |
| Holding.SparingDeletesKeepLiveHeld | src/gc.js:21-46 | the condition for acknowledged copies implies the one for live data |
| Holding.NothingTakenWithoutFaults | src/chunkStore.js:56-70 | while no fault occurs no copy counts as taken and every stored file is sound |
| GcSafety.CommitReferences | src/server.js:75-78 | a chunk referenced after a commit was referenced before or has just been put by that upload |
| GcSafety.RunsKeepInv | src/gc.js:21-46 | in every overlap-free run counts are exact and what sweeps still have to delete is unreferenced |
| GcSafety.OverlapFreeSpares | src/gc.js:21-46 | in every overlap-free run every delete hits a copy that nobody relies on |
| GcSafety.RunsKeepCopies | src/gc.js:21-46 | in every overlap-free run every acknowledged copy behind a live version or an upload in progress is sound, unless a fault took it |
| GcSafety.RefcountsAreExact | src/metadataStore.js:80-162 | in every overlap-free run each count is the chunk's multiplicity over all live manifests, none is negative, and their sum is the live manifests' total length |
| GcSafety.LiveDataIsNeverReclaimed | src/gc.js:5-46 | in every overlap-free run each chunk of each live version was acknowledged by W nodes of its list, and each of them has a sound copy still, unless a fault took it since |
| GcSafety.SoundCopyStays | src/gc.js:5-46 | in an overlap-free run a sound copy stays where it is while some live version references the chunk or some upload carries it, and no fault strikes that very copy |
| GcSafety.LiveChunkIsReadable | src/coordinator.js:134-164 | a live chunk's read finds bytes with its digest while fewer than W of the nodes that acknowledged it answer dishonestly or lost it to a fault since |
| Availability.DownloadReturns | src/server.js:120-136 | in every overlap-free run a download whose version stays live replies with bytes, whatever it is interleaved with, while for each chunk fewer than W of the nodes that acknowledged it are faulty or had lost it |
| Cleanup.QuorumReached | src/coordinator.js:103-112 | with every replica answering, every chunk reaches its quorum and is on every listed replica |
| Cleanup.CleanRunsKeepInv | src/gc.js:21-46 | with every replica reachable, stored files are always accounted for and live chunks are on every replica of their list |
| Cleanup.ExactAfterSweep | src/gc.js:21-46 | with every replica reachable, after a sweep that overlapped no upload each node stores exactly the referenced chunks whose list contains it |
| Overlap.AlwaysCountedIff | src/gc.js:26-38 | in any run, counts are exact throughout if and only if every reap finds its chunk's count still not positive |
| Overlap.UnreferencedRowsAreListed | src/metadataStore.js:127-137 | in any run, overlapping or not, no count exceeds the chunk's multiplicity, so a sweep lists every unreferenced chunk that has a row |
| Overlap.CountsCanTurnNegative | src/metadataStore.js:132-146 | an undue reap can leave a count of minus one, and a sweep then lists the chunk |
| Overlap.CommitSparesQueuesIff | src/server.js:75-78 | a commit leaves all pending sweep deletions unreferenced if and only if it writes no chunk that a sweep has listed |
| Overlap.OverlapLosesLiveData | src/gc.js:26-38 | a concrete run in which a sweep overlaps an upload of the same bytes: the new live version's only chunk is stored nowhere and counted nowhere, with no fault |
| Overlap.ExactCountsDoNotSuffice | src/gc.js:26-38 | the same events with the reap earlier: every reap is due, counts are exact throughout, and the live version's only chunk is stored nowhere |
| EarlierFault.EarlierFaultIsNoExcuse | src/gc.js:26-38 | a concrete run in which a fault precedes the upload and a sweep then takes the version's whole quorum: both exact conditions reject it |
| Updates.CommitCounts | src/server.js:89-107 | a commit adds the new manifest to the counts and takes off the remembered version's, if that is still live |
| Updates.GoneForever | src/metadataStore.js:156-162 | a version once deleted never comes back, however the run goes on |
| Updates.SharedPreviousIsDroppedOnce | src/server.js:89-107 | of two updates that remembered the same version, with anything in between, the first leaves it deleted and the second takes nothing off the counts |
| Updates.UpdateStrandsIff | src/server.js:89-107 | a commit leaves the version it supersedes live if and only if that is not the version it remembered, and stranded if and only if nobody remembers it |
| Updates.StepStrandsNothingIff | src/server.js:82-110 | the exact condition for each step, failing uploads included, to leave no live version stranded |
| Updates.NeverStrandedIff | src/server.js:82-110 | no version is ever stranded in a run if and only if every commit that supersedes a version it did not remember finds another update remembering it, and every upload that fails may forget what it remembered |
| Updates.StrandedForever | src/server.js:82-110 | a live version that is neither current nor remembered by an update in progress stays live for the rest of every run |
| Updates.OverlappingUpdatesStrand | src/server.js:82-110 | a concrete run of two overlapping updates that leaves a version stranded, however it goes on |
| TokenBuckets.SpendingIsBounded | src/rateLimiter.js:18-33 | for any clock readings, backwards ones included, tokens stay within the capacity, and what is admitted is at most capacity plus rate times seconds by which lastRefill advanced |
| TokenBuckets.TokensAreConserved | src/rateLimiter.js:18-33 | for any clock readings, what is admitted, left and lost at the cap equals what was there plus rate times seconds by which lastRefill, the latest reading, advanced |
| TokenBuckets.AffordableCallsAreAdmitted | src/rateLimiter.js:26-33 | for any clock readings, calls that together cost no more than the tokens there are all admitted, so a full bucket admits any burst up to its capacity |
| TokenBuckets.WithoutRefillsTokensAreSpent | src/rateLimiter.js:18-33 | while the clock has not passed lastRefill, tokens are only spent, and a call is admitted if and only if it fits in what is left |
| TokenBuckets.RefillTwiceIff | src/rateLimiter.js:18-24 | a refill on the way changes nothing if and only if the readings do not go backwards or it did not refill |
| TokenBuckets.RejectedCallIsInvisible | src/rateLimiter.js:26-33 | with a clock that does not run backwards, inserting or deleting a rejected call changes no other result |
| TokenBuckets.RejectionInvisibleUnlessUndercut | src/rateLimiter.js:26-33 | at any clock readings the same holds if no later call is both earlier and cheaper |
| TokenBuckets.UniformRejectionInvisible | src/server.js:41-46 | when all calls cost the same, as the server's do, the same holds at any clock readings |
| TokenBuckets.InvisibleToAllIff | src/rateLimiter.js:18-33 | a rejected call is invisible to every schedule that may follow if and only if the clock read no later than the last refill or there is nothing to refill |
| TokenBuckets.RejectionsCanBeStripped | src/rateLimiter.js:26-33 | the admitted calls alone are all admitted and cost the same, if the clock does not run backwards or no call is both earlier and cheaper than one before it |
| TokenBuckets.BackwardsClockShowsRejection | src/rateLimiter.js:18-33 | with a clock that runs backwards a rejected call can let a later, cheaper one through |
| RateLimiters.TokenBucket.TryConsume | src/rateLimiter.js:26-33 | the bucket moves as the schedule functions say, and admits exactly when the refilled tokens cover the cost |
| RateLimiters.RateLimiter.Allow | src/rateLimiter.js:43-54 | a new client gets a full bucket, a known one its own, and no other bucket changes |
| RateLimiters.ClientsAreIndependent | src/rateLimiter.js:3-9 | a client with a bucket is answered as if it were alone, whatever the others do |
| RateLimiters.NewClientStartsFull | src/rateLimiter.js:43-50 | a new client starts full at its own first request, whoever came before |
| RateLimiters.NewClientBurst | src/rateLimiter.js:43-54 | a new client's requests are all admitted while they cost no more than the capacity together, whoever came before |

## Left out

- HTTP, routing, request bodies in JSON, connection pools and timeouts as durations: each call to a node has an outcome chosen freely.
- SQLite and SQL text, table columns for creation times, and listVersions: they add only easy members.
- Several processes on one database, coordinators (`src/cluster.js`) or sweeps (`src/gc.js:50-81`): the commit block takes no transaction, so nothing is claimed about its interleaving between statements.
- SHA-1, SHA-256 and HMAC internals, presigned URLs, and statistical claims about how evenly keys spread.
- Metrics other than deduplicated bytes, environment parsing, process forking, benchmarks and deployment files.
- Bytes left behind by failed uploads or by sweeps that could not reach a replica: the program does not reclaim them, and no bound is claimed.
- Late effects: a timed-out PUT or DELETE that is carried out after the coordinator has moved on.
- Parallel fan-out inside one method: `Coordinator`'s methods visit replicas one after another; the order cannot matter because each touches its own node, and `StoreSystem` interleaves the answers freely.
- Integer width of the search midpoint: `(lo + hi) >>> 1` is division by two, since ring lengths are far below 2^31.
- Non-positive chunk sizes and non-Buffer bodies, which the program never passes on or rejects with a type error.
- Floating-point rounding in the token bucket.
- Servers.Server.PostFile: the handlers as methods run without interruption; `StoreSystem` is where requests interleave, and `Alone` connects the two.
- Dedup.UploadsConserveBytes: uploads one after another; for overlapping ones see the exact condition in `Dedup.BalancedIffUnanimous`.
