# Model of Chishiki's stores

Chishiki keeps files as lists of content-addressed chunks, keeps every version of every file
in metadata tables, collects unreferenced chunks while clients write, and serves all of it
over WebDAV. This project models that core in Dafny and proves what its documentation
promises of it: garbage collection never takes a chunk that a version needs, whatever the
interleaving; blobs survive crashes whole; version numbers keep their meaning; renames
substitute path prefixes; every reader and writer behaves like a plain byte string with a
cursor; the search index agrees with the content.

`dafny verify dfyconfig.toml` checks the whole project.

## How it is laid out

| file | models |
|---|---|
| `Base`, `Manifests`, `Paths`, `FileNames` | shared vocabulary, chunk lists, virtual paths, indexable names |
| `BlobStores` | the blob store class, `ManifestReader`, `ChunkStream` |
| `MetaTables`, `VersionHistory` | the tables as values, what each statement does, histories over whole runs |
| `Namespace`, `RenameRaces` | the pointer tree as a map from paths, and what racing renames do to it |
| `MetaStores` | the metadata store class, method by method against the statements |
| `References`, `Sweeps`, `GcProtocol` | references, the sweep loop, and the concurrent protocol around the guard |
| `GcProgress`, `GcQuiescence` | what the protocol's operations come to and that they can complete, and what a second collection finds |
| `CrashProtocol` | concurrent puts on a disk that crashes |
| `FsModel`, `FsTheorems`, `CopyTheorems`, `IndexDrift` | the filesystem operations on all three stores, what runs of them keep, and how the index can drift |
| `Outcomes`, `CallHistory` | the answer of each operation for every input, and the version histories that runs of operations leave |
| `RevertRaces`, `StaleIds` | what reverts, copies and open handles do when other statements come in between |
| `Inners`, `Files`, `DavFs`, `Openings`, `Sessions` | the shared state, file handles, the filesystem object, what opening gives, and whole client sessions, as classes whose methods are tied to `FsModel` |
| `Drafts`, `Searches`, `Streaming`, `Civil` | positioned writes, search results, version streaming, calendar dates |

A class method that changes state ends in the state its specification function gives
(`ensures (State(), r) == …`); what the system promises is then proved about those functions.
Concurrency is modelled as steps on a shared state. A hash is taken to be collision-free: it
is a value that its preimage determines and that determines its preimage, which only
specifications read. The chunker is any function that yields contiguous, non-empty pieces.

## Where the code and the obvious claim part

- Renaming a file onto its own path deletes the file and then reports it missing
  (`crates/vfs/src/davfs.rs:859-884`): `FsTheorems.RenameOntoItself`. Every other failed rename
  changes nothing (`FsTheorems.FailedRenameIsCleanIff`), and `FsTheorems.RenameSucceedsIff`
  says when one succeeds.
- A rename that changes whether a name is indexable leaves the index behind
  (`crates/vfs/src/davfs.rs:74-82`): `FsTheorems.RenameKeeps` has the exact condition, and
  `IndexDrift.IndexCanDrift` a run that meets it.
- The checks of a rename, or of a create, and its update are separate steps
  (`crates/vfs/src/davfs.rs:837-884`). Two renames can detach both collections
  (`RenameRaces.RacingRenamesMakeCycle`), and a destination whose id is given to a file in
  between becomes a file with a child (`RenameRaces.RenameIntoReusedId`).
  `RenameRaces.AlwaysTreeIff` says, for any interleaving, exactly when the namespace stays one
  tree; for operations run one at a time it always does (`FsTheorems.RunKeepsStores`).
- A revert resolves its node and its version before taking the guard
  (`crates/vfs/src/davfs.rs:449-453`). While the node lives it yields the version if and only if
  the version is still there at the load, or was empty (`RevertRaces.RevertYieldsVersionIff`):
  pruned in between, it empties the file. If the file is deleted in between, node and version
  ids may both be in use again, and it may put another file's content into a new file
  (`RevertRaces.RevertAcrossReuse`). No reference dangles even then.
- An open handle keeps its node id (`crates/vfs/src/file.rs:304-331`), and a copy both of its
  (`crates/vfs/src/davfs.rs:951-972`). They reach the file they were opened on if and only if it
  was there all the time (`StaleIds.SameNodeIff`). Otherwise they are refused as long as a node
  with a larger id lives (`StaleIds.GuardedCommit`), which covers the source of a copy onto a
  new file; without such a node a handle may write into a different file
  (`StaleIds.CommitAcrossReuse`) and a copy may read one (`StaleIds.CopyAcrossReuse`).
- Seeking truncates the target to 64 bits (`crates/blobstore/src/manifest.rs:113`,
  `crates/vfs/src/file.rs:280`): exact if and only if the target is below 2^64
  (`BlobStores.SeekIsExactBelowLimit`, `BlobStores.SeekWrapsAround`).
- An empty write past the end grows the logical length but not the staging file
  (`crates/vfs/src/file.rs:222-226`). The content committed is zero-padded all the same, but
  a read through the write handle fails there (`Files.FileHandle.ReadBytes`,
  `Files.PaddingIsNotReadable`).
- The comment at `crates/vfs/src/file.rs:296-297` expects setting the length to trim bytes
  left by a rewrite that seeks backwards. The logical length never shrinks, so without failed
  writes there is nothing to trim. After a write that failed part-way there is: its stray
  bytes are trimmed unless a later write jumps over them, and then they become content
  (`Files.WriteStepEditsIff`, `Files.StrayBytesShow`).
- The largest row id is reused after a deletion (`crates/vfs/src/meta.rs:152-153`), so version
  identity is about a node's lifetime, and dropping documents on deletion is what keeps the
  index right under reuse.

## Model

| member | source | states |
|---|---|---|
| `GcProtocol.GcSafety` | crates/vfs/src/davfs.rs:37-50 | in every reachable state of any number of concurrent flushes, copies, reverts, prunes, deletions and collections, every hash a version refers to has its blob on disk, with bytes that hash to it |
| `GcProtocol.StepKeepsInv` | crates/vfs/src/davfs.rs:140-148 | each single step, of a guarded writer, of an unguarded statement or of the collector, keeps: what a flush has stored so far is there, what a copy holds is there even if its source is gone, and the stale mark still covers every reference |
| `GcProtocol.EveryVersionIsReadable` | crates/vfs/src/davfs.rs:37-50 | so every version, current or historical, is a stored file whose chunks are all present and whose recorded size is its content's length |
| `GcProtocol.HeldChunksAreSafe` | crates/vfs/src/davfs.rs:128-148 | a copy or revert can count on the chunks of the manifest it loaded although every version naming them was deleted after the load |
| `GcProtocol.GcCompleteness` | crates/vfs/src/davfs.rs:540-566 | when a sweep ends, with pruning and deleting going on around it, the disk holds the marked live set plus at most what was skipped, and exactly the live set if nothing was; the statistics count exactly the blobs, and the bytes, gone since the scan |
| `GcProgress.CollectionLeavesReferenced` | crates/vfs/src/davfs.rs:540-566 | whatever runs between a collection's mark and its end, it leaves of the blobs that were there at the mark those then referenced and at most what it skipped, and exactly those referenced, having scanned every blob there was, if it listed every blob and no deletion failed; it reports as removed and reclaimed exactly what was there at the mark and is gone |
| `GcProgress.CommitWritesWhatWasLoaded` | crates/vfs/src/davfs.rs:140-148 | with any steps of others in between, a copy or revert commits onto its target exactly the manifest that was current, or recorded, at the moment it loaded it |
| `GcProgress.FlushCommitsItsPieces` | crates/vfs/src/file.rs:304-331 | with any steps of others in between, a flush commits the manifest of the pieces it began with, all of them on disk |
| `GcProgress.CollectionCanComplete` | crates/vfs/src/davfs.rs:540-566 | from every reachable state with a free lock a collection can run to its end, and then the disk holds exactly what is referenced |
| `GcProgress.FlushCanComplete` | crates/vfs/src/file.rs:304-331 | from every reachable state without a collector a flush can run to its end, and has then done what storing its pieces and recording their manifest at once would do |
| `GcProgress.ReferenceCanComplete` | crates/vfs/src/davfs.rs:140-148 | the same for a copy of a current content and for a revert to a version |
| `GcProgress.SourceMayGo` | crates/vfs/src/davfs.rs:128-148 | wherever a copy may begin it may come to hold the manifest of a source deleted since, with every chunk still there, and can commit it |
| `GcProtocol.ProtocolRunsStatements` | crates/vfs/src/davfs.rs:43-47 | for the tables every run of the protocol is a run of atomic statements that write stored manifests only |
| `GcProtocol.ConcurrentWritersLoseNothing` | crates/vfs/src/file.rs:304-331 | concurrent writers to a node that lives on lose no update, and its history only grows, whatever else runs |
| `Sweeps.SweepDeletes` | crates/vfs/src/davfs.rs:547-564 | a sweep deletes exactly the listed, unreferenced blobs whose deletion works |
| `Sweeps.SweepAccounts` | crates/vfs/src/davfs.rs:545-565 | each listed blob is counted once; removed is the number deleted; bytes before = bytes left + bytes reclaimed |
| `Sweeps.SweepLeaves` | crates/blobstore/src/lib.rs:193-226 | what a collection leaves: the live set, and otherwise only what the scan missed or could not delete |
| `Sweeps.SecondSweepIsIdle` | crates/vfs/src/davfs.rs:540-566 | for the sweep alone: where every reference of a complete first collection is still there and every blob is either left over from it or referenced, a second one removes nothing |
| `GcQuiescence.NextCollectionRemovesNothing` | crates/vfs/src/davfs.rs:540-566 | from the end of a complete collection with nothing unreferenced since its mark, through any run of any clients that drops no reference and strands no stored chunk, the next collection removes nothing |
| `GcQuiescence.StepKeepsQuiet` | crates/vfs/src/davfs.rs:37-50 | each such step keeps every blob referenced or part of a flush under way, and every collection under way without anything to remove |
| `References.UnguardedAddsNoReference` | crates/vfs/src/davfs.rs:41-50 | no statement but a content write adds a reference to a blob |
| `References.WriteAddsItsHashes` | crates/vfs/src/meta.rs:280-335 | a content write adds no reference beyond the hashes of the manifest it records |
| `CrashProtocol.BlobIntegrity` | crates/blobstore/src/lib.rs:105-140 | at every moment of every run of concurrent puts, streamed puts and deletions, crashes at any steps included, every file under a blob name holds complete bytes that hash to it |
| `CrashProtocol.StepKeepsInv` | crates/blobstore/src/lib.rs:71-140 | each step keeps: a temporary file holds what was hashed minus what is still to be written, is nobody else's and unnamed, and every name ever given stands on synced bytes that hash to it |
| `CrashProtocol.StepOnBlobs` | crates/blobstore/src/lib.rs:71-140 | between crashes the many steps of a put amount to one atomic insertion at the rename, and change the store in no other way |
| `CrashProtocol.CompletedPutIsStored` | crates/blobstore/src/lib.rs:71-140 | a put, at once or streamed in any pieces, that has ended without giving up, a crash or a deletion of its blob has stored exactly the bytes it was given, under their hash |
| `CrashProtocol.PutCanComplete` | crates/blobstore/src/lib.rs:71-79 | from every sound disk a put of bytes that are not there can run to its end, which adds exactly that blob |
| `CrashProtocol.ReaderCanComplete` | crates/blobstore/src/lib.rs:86-105 | the same for a streamed put, whatever pieces the input comes in, and if the blob is there already |
| `CrashProtocol.CrashMayLose` | crates/blobstore/src/lib.rs:107-115 | what the model lets a crash do: leave anything in a file not synced, and lose any name, a linked blob's included |
| `MetaTables.RowsReproduceManifest` | crates/vfs/src/meta.rs:590-615 | decoding encoded chunk rows, casts included, gives the manifest back exactly when its total size is where its furthest chunk ends |
| `MetaTables.StoredRoundTrip` | crates/vfs/src/meta.rs:590-615 | so every manifest that storing a file produces survives the rows, recomputed total size included |
| `MetaTables.NextId` | crates/vfs/src/meta.rs:152-153 | a new row gets the id one past the largest in use, or 1, so that the largest id is given out again once its row is gone |
| `MetaTables.Cascade` | crates/vfs/src/meta.rs:151-186 | the rows deleted with a set of nodes include the set and are closed under children |
| `Namespace.CascadeIsSubtree` | crates/vfs/src/meta.rs:151-186 | deleting a node deletes exactly it and the nodes below it |
| `Namespace.DeleteRemovesSubtree` | crates/vfs/src/meta.rs:503-510 | deleting a node removes its subtree and the versions of that subtree, and leaves every other row as it was |
| `MetaTables.TopIsCurrent` | crates/vfs/src/meta.rs:302-306 | the highest version number in use for a node is its current version's |
| `VersionHistory.ApplyKeepsOk` | crates/vfs/src/meta.rs:145-186 | every statement, in any order from any client, keeps the declared constraints, node sizes equal to the current version's size and content, and current versions the highest of their own node |
| `VersionHistory.StepOnHistory` | crates/vfs/src/meta.rs:280-335 | what one statement does to a surviving node's history: one version appended under the next number, or one pruned, or nothing |
| `VersionHistory.VersionIdentity` | crates/vfs/src/meta.rs:269-335 | over any run a node lives through, numbers only grow, a number is never given a new meaning, and the current version is the node's own highest |
| `VersionHistory.SameNumberSameContent` | crates/vfs/src/meta.rs:363-413 | a version number seen at one moment denotes the same content, or nothing, at any later moment |
| `VersionHistory.NoLostUpdate` | crates/vfs/src/meta.rs:280-335 | current content is the last manifest committed, and the numbers handed out are those of the commits in order with consecutive repeats collapsed |
| `VersionHistory.HistoryIsComplete` | crates/vfs/src/meta.rs:269-335 | without pruning, every old and every appended version stays recorded |
| `CallHistory.CallRunsStatements` | crates/vfs/src/davfs.rs:666-983 | every filesystem operation is, for the tables, a run of at most two statements |
| `CallHistory.CallWrites` | crates/vfs/src/davfs.rs:890-983 | among them, the only content write is the one the operation is for: the pieces flushed, the version reverted to, or what the source of a copy exposes |
| `CallHistory.CallsRunStatements` | crates/vfs/src/davfs.rs:666-983 | every run of operations is a run of statements that write stored manifests only, and just the contents flushed, reverted to and copied, in order |
| `CallHistory.CallsLoseNothing` | crates/vfs/src/davfs.rs:666-983 | over any run of operations a node lives through, its history is what was flushed, reverted and copied onto it, with consecutive repeats collapsed, and no version besides |
| `MetaStores.MetaStore.LookupChild` | crates/vfs/src/meta.rs:203-212 | finds the child of that name, or none when there is none |
| `MetaStores.MetaStore.LookupPath` | crates/vfs/src/meta.rs:217-225 | resolves the names one by one from the root, not found if any step fails |
| `MetaStores.MetaStore.InsertNode` | crates/vfs/src/meta.rs:249-268 | adds exactly one empty node, or reports a taken name or a missing parent and changes nothing |
| `MetaStores.MetaStore.ReadManifest` | crates/vfs/src/meta.rs:590-615 | the row loop yields the decoded manifest; a missing version reads as empty |
| `MetaStores.MetaStore.LoadManifest` | crates/vfs/src/meta.rs:340-360 | the current version's manifest, empty if never written, corrupt if the pointer dangles |
| `MetaStores.MetaStore.SetFileContent` | crates/vfs/src/meta.rs:280-335 | appends one version with the next number and makes it current, or leaves the tables alone when the content is unchanged |
| `MetaStores.MetaStore.VersionByNumber` | crates/vfs/src/meta.rs:379-388 | finds a node's version of that number, or reports that there is none |
| `MetaStores.MetaStore.DeleteVersion` | crates/vfs/src/meta.rs:396-413 | removes exactly that version and its chunk rows; refuses the current one |
| `MetaStores.MetaStore.DeleteNode` | crates/vfs/src/meta.rs:503-510 | ends in the tables without what the cascade of the node takes, which `Namespace.DeleteRemovesSubtree` shows to be its subtree |
| `MetaStores.MetaStore.RemoveFile` | crates/vfs/src/meta.rs:416-422 | deletes a file with its versions; refuses a collection |
| `MetaStores.MetaStore.RemoveDir` | crates/vfs/src/meta.rs:425-443 | deletes an empty collection; refuses a file or a non-empty one |
| `MetaStores.MetaStore.Rename` | crates/vfs/src/meta.rs:516-528 | changes the parent and name of one node only, refusing a taken name or a missing parent |
| `MetaStores.MetaStore.ReferencedChunkHashes` | crates/vfs/src/meta.rs:539-548 | exactly the hashes that some version row refers to |
| `MetaStores.MetaStore.PathOf` | crates/vfs/src/meta.rs:451-482 | the bounded loop renders the walk to the root: a path, nothing for a missing node, or corrupt |
| `MetaStores.MetaStore.IsAncestorOrSelf` | crates/vfs/src/meta.rs:488-501 | the bounded loop answers the walk towards the root |
| `MetaStores.RenderedIsOwnPath` | crates/vfs/src/meta.rs:451-482 | on any table at all, cycles included, a path that is rendered is the node's own |
| `MetaStores.LookupInvertsPathOf` | crates/vfs/src/meta.rs:451-482 | on a tree, looking up a rendered path finds the node again; at depth 10,000 and beyond the answer is corrupt instead |
| `MetaStores.PathOfInvertsLookup` | crates/vfs/src/meta.rs:217-225 | on a tree, rendering the node a path resolves to gives the path back, normalised |
| `Paths.SegmentsAtSlash` | crates/vfs/src/davfs.rs:1016-1021 | a slash separates: the segments of two strings joined by one are those of the first and then those of the second |
| `Paths.SegmentsOfName` | crates/vfs/src/davfs.rs:1016-1021 | a non-empty string without a slash is its own only segment |
| `Paths.RenderedParts` | crates/vfs/src/meta.rs:463-477 | a rendered path is each name after exactly one slash, and a lone slash for the root |
| `Paths.SegmentsInvertPathBytes` | crates/vfs/src/davfs.rs:1016-1021 | splitting a rendered path gives back its names |
| `Paths.SegmentsAreNames` | crates/vfs/src/davfs.rs:1016-1021 | whatever bytes a client sends, the segments are non-empty and contain no slash |
| `Paths.WithinIsProperPrefix` | crates/vfs/src/davfs.rs:64-69 | below a non-root scope the byte-prefix test accepts exactly the paths that properly extend the scope name by name |
| `Namespace.ResolveIffAt` | crates/vfs/src/meta.rs:217-225 | on a tree, a path resolves to a node if and only if parent pointers from the node spell that path |
| `Namespace.WalkUpIsExact` | crates/vfs/src/meta.rs:451-482 | on any table, a path is returned exactly when it is the node's and shorter than the walk limit |
| `Namespace.WalkUpOnTree` | crates/vfs/src/meta.rs:451-482 | on a tree: the path below the limit, corrupt at or beyond it, nothing for an unknown id |
| `Namespace.AncestorWalkIsSound` | crates/vfs/src/meta.rs:488-501 | on any table, yes means there is an ancestor within the limit and conversely, and no is said only when there is none at all |
| `Namespace.AncestorWalkOnTree` | crates/vfs/src/meta.rs:488-501 | on a tree, the answer is the prefix order on paths within the limit |
| `Namespace.ProperAncestorIsProperPrefix` | crates/vfs/src/meta.rs:484-501 | being properly above in the pointer tree is being a proper prefix as a path |
| `Namespace.InsertKeepsTree` | crates/vfs/src/meta.rs:249-268 | a new node with a free proper name under a collection keeps the namespace one tree |
| `Namespace.RemoveKeepsTree` | crates/vfs/src/meta.rs:425-443 | so does removing a childless node other than the root |
| `Namespace.MoveIsSubstitution` | crates/vfs/src/meta.rs:516-528 | relinking a node substitutes the path prefix of its subtree, no more and no less |
| `RenameRaces.MoveKeepsTreeIff` | crates/vfs/src/davfs.rs:847-857 | relinking keeps a tree if and only if, at that moment, the destination is a collection and is not the node itself or below it |
| `RenameRaces.StepTreeIff` | crates/vfs/src/meta.rs:249-268 | one statement of any client keeps the namespace a tree if and only if it is harmless at that moment |
| `RenameRaces.AlwaysTreeIff` | crates/vfs/src/davfs.rs:778-884 | over any interleaving of any clients' statements the namespace is one tree at every moment if and only if each statement carried out is harmless when it is: inserts and renames with a proper name under what is then a collection, renames not into the own subtree, nothing that moves or deletes the root |
| `RenameRaces.RenameIntoReusedId` | crates/vfs/src/davfs.rs:837-884 | a rename whose checks all pass, whose destination is then deleted and its id given to a file, is accepted and puts a child under that file |
| `RenameRaces.RacingRenamesMakeCycle` | crates/vfs/src/davfs.rs:849-884 | two renames that both pass the check before either updates are both accepted and cut both collections off from the root; the check, made after the first update, would have refused the second |
| `FsTheorems.RunKeepsStores` | crates/vfs/src/davfs.rs:665-983 | after any sequence of operations on a fresh filesystem: all nodes reach the root, sibling names are unique and proper, only collections have children, sizes and current versions are right, and no needed blob is missing |
| `FsTheorems.RunKeepsAgreement` | crates/vfs/src/davfs.rs:71-115 | after any sequence whose renames keep indexability, the index holds one document per written, indexable file of at most 4 MiB, equal to its current content, and nothing else, node-id reuse included |
| `FsTheorems.RenameIsPrefixSubstitution` | crates/vfs/src/davfs.rs:829-888 | after a successful rename a node has a path exactly when it existed, was not the replaced destination file, and the path is its old one with the source prefix replaced |
| `FsTheorems.RenameKeepsVersions` | crates/vfs/src/davfs.rs:829-888 | a rename touches no blob and no version but those of the file it replaces |
| `FsTheorems.RenameSucceedsIff` | crates/vfs/src/davfs.rs:829-888 | exactly when a rename succeeds |
| `FsTheorems.RenameKeepsContent` | crates/vfs/src/davfs.rs:829-888 | every node but a replaced file is still there, with the same current version, size and content |
| `FsTheorems.FailedRenameIsCleanIff` | crates/vfs/src/davfs.rs:829-888 | a failed rename leaves everything as it was, except exactly when a file is renamed onto its own path |
| `FsTheorems.RenameOntoItself` | crates/vfs/src/davfs.rs:859-884 | renaming onto the own path never succeeds: the root and collections are left alone, a file is deleted and then reported missing |
| `FsTheorems.RenameKeeps` | crates/vfs/src/davfs.rs:829-888 | a rename keeps the stores sound, and keeps the index in agreement exactly when it does not change whether a document is due |
| `FsTheorems.RelinkAgreesIff` | crates/vfs/src/davfs.rs:74-82 | moving a node without re-indexing keeps agreement if and only if indexability stays the same or no document is at stake |
| `FsTheorems.CreateSucceedsIff` | crates/vfs/src/davfs.rs:778-799 | creating succeeds exactly when the parent is a collection and nothing has the path |
| `FsTheorems.CreateAddsOnePath` | crates/vfs/src/davfs.rs:778-799 | creating adds one path, to an empty node of the kind asked for, and changes no other path or node |
| `FsTheorems.DeleteFileRemovesOnePath` | crates/vfs/src/davfs.rs:813-827 | deleting a file succeeds exactly on files, removes its path and nothing else, and leaves every other content alone |
| `FsTheorems.DeleteDirRemovesOnePath` | crates/vfs/src/davfs.rs:801-811 | deleting a collection succeeds exactly on empty ones other than the root, and removes its path and nothing else |
| `FsTheorems.CreateKeeps` | crates/vfs/src/davfs.rs:778-799 | creating keeps the stores sound and the index in agreement, also when an id is reused |
| `FsTheorems.DeleteFileKeeps` | crates/vfs/src/davfs.rs:813-827 | so does deleting a file |
| `FsTheorems.DeleteDirKeeps` | crates/vfs/src/davfs.rs:801-811 | so does deleting a collection |
| `FsTheorems.CopyKeeps` | crates/vfs/src/davfs.rs:890-983 | so does copying |
| `FsTheorems.RevertKeeps` | crates/vfs/src/davfs.rs:447-457 | so does reverting |
| `FsTheorems.PruneKeeps` | crates/vfs/src/davfs.rs:572-576 | so does pruning |
| `FsTheorems.FlushKeeps` | crates/vfs/src/file.rs:286-342 | so does flushing a handle |
| `FsTheorems.CollectKeeps` | crates/vfs/src/davfs.rs:540-566 | so does garbage collection |
| `FsTheorems.ReindexAgrees` | crates/vfs/src/davfs.rs:84-115 | re-indexing a text file restores agreement whatever its document was, and any other node keeps it if it has none |
| `IndexDrift.IndexCanDrift` | crates/vfs/src/davfs.rs:74-82 | a run that ends with the index in disagreement: write `a.md`, rename it to `a` |
| `CopyTheorems.CopySucceedsIff` | crates/vfs/src/davfs.rs:890-983 | exactly when a copy succeeds |
| `CopyTheorems.CopyMirrors` | crates/vfs/src/davfs.rs:890-983 | after a successful copy the destination path names a node of the same kind, exposing for a file what the source exposes, and every other path, node and content is unchanged |
| `Outcomes.RevertRestores` | crates/vfs/src/davfs.rs:447-457 | for every path and number: refused without effect where the path names no file or the file has no such version; otherwise what the path names exposes exactly what was recorded under the number, and every other node is as it was |
| `Outcomes.PruneAnswer` | crates/vfs/src/davfs.rs:572-576 | for every path and number: refused without effect where the path names no file, the file has no such version, or the version is the current one; otherwise that number, and no other number of any node, denotes nothing any more, and every current content stays |
| `Outcomes.CreateAnswer` | crates/vfs/src/davfs.rs:778-799 | the answer of every create: forbidden, missing, exists, or success, by what the path and its parent name |
| `Outcomes.DeleteFileAnswer` | crates/vfs/src/davfs.rs:813-827 | the answer of every file deletion, which drops exactly the node the path names |
| `Outcomes.DeleteDirAnswer` | crates/vfs/src/davfs.rs:801-811 | the answer of every collection deletion: it succeeds exactly on a collection other than the root below which no path exists |
| `Outcomes.RenameAnswer` | crates/vfs/src/davfs.rs:829-888 | the answer of every rename, error by error, by the two paths and the kinds of what they name |
| `Outcomes.CopyWorks` | crates/vfs/src/davfs.rs:890-983 | a copy succeeds wherever nothing stands against it |
| `Outcomes.CopyFails` | crates/vfs/src/davfs.rs:890-983 | and otherwise gives the one error that does, by the two paths and the kinds of what they name |
| `RevertRaces.RevertYieldsVersionIff` | crates/vfs/src/davfs.rs:447-457 | whatever statements run between a revert's lookup and its load while the node lives, it yields the version asked for if and only if that version is still there or was empty |
| `RevertRaces.RevertRacingPrune` | crates/vfs/src/davfs.rs:449-453 | if the version is pruned directly before the load, the revert succeeds and empties the file |
| `RevertRaces.RevertAcrossReuse` | crates/vfs/src/davfs.rs:449-453 | if the file is deleted and both ids are reused, the revert succeeds and puts another file's content into the new file |
| `StaleIds.SameNodeIff` | crates/vfs/src/meta.rs:152-153 | an id kept over a run names a node and was given to no new one in between if and only if the node was there all the time |
| `StaleIds.LargerNodeGuards` | crates/vfs/src/meta.rs:152-153 | as long as any node with a larger id lives, the id is not given out again |
| `StaleIds.GuardedCommit` | crates/vfs/src/file.rs:304-331 | then a commit to the id goes to its own node, or is refused as not found |
| `StaleIds.CopyLoadsLatest` | crates/vfs/src/davfs.rs:951-972 | while its source lives, a copy loads the last manifest committed to the source by then |
| `StaleIds.CopyToNewIsGuarded` | crates/vfs/src/davfs.rs:951-972 | a copy onto a new file that lives cannot pick up another file's content: its source is itself or gone |
| `StaleIds.CopyOfGoneSource` | crates/vfs/src/davfs.rs:951-972 | if the source is deleted before the load, the load fails and the new destination stays behind, empty |
| `StaleIds.CopyAcrossReuse` | crates/vfs/src/davfs.rs:951-972 | a copy onto an existing file whose source is deleted and its id reused copies the other file's content |
| `StaleIds.CommitStaysWithNode` | crates/vfs/src/file.rs:304-331 | then a commit to the id becomes that node's current content and every number of its keeps its meaning |
| `StaleIds.CommitAcrossReuse` | crates/vfs/src/file.rs:304-331 | otherwise a handle whose file was deleted may write into a different file that reuses the id |
| `FileNames.CaseDoesNotMatter` | crates/vfs/src/davfs.rs:165-215 | letter case never decides whether a name is indexed |
| `FileNames.IndexableIff` | crates/vfs/src/davfs.rs:165-180 | a name is indexed exactly if it has a non-empty stem that does not begin with a dot and a listed extension, in any letter case |
| `FileNames.HiddenIsNotIndexable` | crates/vfs/src/davfs.rs:166-171 | a name that begins with a dot never is |
| `Inners.Inner.TryReindex` | crates/vfs/src/davfs.rs:90-115 | brings one node's document in line: unchanged if it can have none, dropped past the cap, equal to the current content otherwise, untouched if a blob is missing |
| `Inners.Inner.IndexText` | crates/vfs/src/davfs.rs:107-115 | the committed document is the whole content, exactly when every chunk can be read |
| `Inners.Inner.Deindex` | crates/vfs/src/davfs.rs:151-159 | drops one document and commits |
| `Inners.Inner.ReferenceUnderGuard` | crates/vfs/src/davfs.rs:140-148 | loads a manifest and records it as the node's content, or passes the loading error on |
| `Inners.SearchIndex.IndexDocument` | crates/index/src/lib.rs:153-163 | replaces the pending document of one id; nothing is searchable before a commit |
| `Inners.SearchIndex.RemoveDocument` | crates/index/src/lib.rs:165-169 | drops the pending document of one id |
| `Inners.SearchIndex.Commit` | crates/index/src/lib.rs:172-179 | makes everything pending searchable |
| `DavFs.DavFs.Open` | crates/vfs/src/davfs.rs:666-747 | ends in the state, the answer and the handle that `Openings.OpenExistingPath` and `Openings.OpenNewPath` describe |
| `Openings.OpenExistingPath` | crates/vfs/src/davfs.rs:689-724 | opening what is there changes nothing; a collection is refused, and a file if a new one was asked for or its content cannot be staged; otherwise the handle reads the current content from its start, or edits it, from its end when appending, with nothing to commit, or edits nothing when truncating, with something to commit |
| `Openings.OpenNewPath` | crates/vfs/src/davfs.rs:670-747 | opening what is not there is refused without effect unless creating was asked for and the parent is a collection; then the path names a new file and the handle edits it, empty |
| `DavFs.OpenedIsAtPath` | crates/vfs/src/davfs.rs:666-747 | whatever was opened is the node its path names, in sound stores |
| `DavFs.DavFs.CreateDir` | crates/vfs/src/davfs.rs:778-799 | the new state and result of creating a collection |
| `DavFs.DavFs.RemoveDir` | crates/vfs/src/davfs.rs:801-811 | the new state and result of deleting a collection |
| `DavFs.DavFs.RemoveFile` | crates/vfs/src/davfs.rs:813-827 | the new state and result of deleting a file, its document included |
| `DavFs.DavFs.Rename` | crates/vfs/src/davfs.rs:829-888 | the new state and result of a rename, the replaced file and its document included |
| `DavFs.DavFs.Copy` | crates/vfs/src/davfs.rs:890-983 | the new state and result of a copy |
| `DavFs.DavFs.RevertToVersion` | crates/vfs/src/davfs.rs:447-457 | the new state and result of a revert |
| `DavFs.DavFs.PruneVersion` | crates/vfs/src/davfs.rs:572-576 | ends in the state and the answer that `Outcomes.PruneAnswer` describes |
| `DavFs.DavFs.OpenVersion` | crates/vfs/src/davfs.rs:351-359 | by what the path names: not found, a collection, no such version, or the manifest recorded under the number, complete on disk, with a size equal to its content's length |
| `DavFs.DavFs.Gc` | crates/vfs/src/davfs.rs:540-566 | what is left on disk is the live set plus what could not be scanned or deleted; scanned = kept + removed + failed, removed is the number of blobs gone, and bytes before = bytes left + bytes reclaimed |
| `DavFs.DavFs.Search` | crates/vfs/src/davfs.rs:471-515 | the first `limit` live hits inside the scope among those fetched, in order, by their current paths; refused only when a node lies beyond the walk limit |
| `Searches.ScopeFilterIsExact` | crates/vfs/src/davfs.rs:64-69 | the path-prefix filter accepts exactly the nodes properly below the scope |
| `Searches.AnswerIsExact` | crates/vfs/src/davfs.rs:471-515 | with all hits within the walk limit the answer is exactly the first `limit` relevant hits, stale ones dropped |
| `Searches.OneResult` | crates/vfs/src/davfs.rs:490-516 | a hit is reported exactly if it is alive and its path properly extends the scope's, or the scope is the root |
| `Searches.ResultsFollowHits` | crates/vfs/src/davfs.rs:490-516 | results come in the order of the hits |
| `Searches.AnswerOrTooDeep` | crates/vfs/src/davfs.rs:471-515 | an answer is exact whenever one is given, and withheld only because a node lies too deep |
| `Manifests.ChunkTiling` | crates/blobstore/src/lib.rs:154-167 | chunks of a stored file tile it: contiguous, non-empty, summing to the total size, each holding its slice of the content |
| `Manifests.FindChunk` | crates/blobstore/src/manifest.rs:124-140 | the binary search: a hit covers the position, and over ascending chunks a miss means that none does |
| `Manifests.CoveringChunk` | crates/blobstore/src/manifest.rs:124-140 | every position inside a stored file is covered, so the inconsistent-offsets error cannot arise |
| `BlobStores.BlobStore.Put` | crates/blobstore/src/lib.rs:71-79 | stores the bytes under their hash; a no-op when they are there |
| `BlobStores.BlobStore.StoreFile` | crates/blobstore/src/lib.rs:154-167 | the manifest of the pieces, describing exactly the bytes stored, with every chunk present |
| `BlobStores.PutAllAdds` | crates/blobstore/src/lib.rs:154-167 | storing pieces adds exactly their hashes and disturbs no other blob |
| `BlobStores.BlobStore.Get` | crates/blobstore/src/lib.rs:143-145 | the bytes that hash to the name, or missing |
| `BlobStores.BlobStore.ListHashes` | crates/blobstore/src/lib.rs:199-226 | every readable blob once, and nothing else |
| `BlobStores.BlobStore.Remove` | crates/blobstore/src/lib.rs:234-247 | deletes one blob and reports its size; zero if absent; unchanged on failure |
| `BlobStores.ManifestReader.Read` | crates/blobstore/src/manifest.rs:77-98 | the next bytes of the flat file, as many as asked for or up to the end of the current chunk, none exactly for an empty buffer or at the end; fails exactly when the next chunk is needed and gone, and then changes nothing |
| `BlobStores.ManifestReader.StuckAtMissing` | crates/blobstore/src/manifest.rs:77-98 | that is where the chunk covering the position is missing |
| `BlobStores.ManifestReader.Seek` | crates/blobstore/src/manifest.rs:101-151 | lands at the position given, or where the sum of size or position and offset says, reduced to 64 bits; fails exactly for a negative sum or when the chunk covering the target is missing, and then changes nothing; offsets are never inconsistent |
| `BlobStores.MovesAgree` | crates/blobstore/src/manifest.rs:102-113 | from any position `Start(q)` lands at q; `End(d)` and `Current(d)` land where `Start` of the sum does, and are refused exactly when the sum is negative |
| `BlobStores.TargetsLand` | crates/blobstore/src/manifest.rs:102-113 | the target computed is negative exactly when the move is refused, and otherwise the one place where the move lands |
| `BlobStores.SeekIsExactBelowLimit` | crates/blobstore/src/manifest.rs:102-113 | the landing position is the one asked for if and only if that is below 2^64 |
| `BlobStores.SeekWrapsAround` | crates/blobstore/src/manifest.rs:102-113 | one step forward from 2^64 - 1 lands at 0 |
| `BlobStores.ManifestReader.ReadAll` | crates/blobstore/src/manifest.rs:77-98 | reading a whole file succeeds exactly when every blob is there, and yields exactly the content |
| `BlobStores.ManifestReader.Replay` | crates/blobstore/src/manifest.rs:36-151 | any script of reads and seeks behaves as on a plain byte array with a cursor |
| `BlobStores.ChunkStream.NextChunk` | crates/blobstore/src/manifest.rs:191-195 | the next chunk's bytes, an error for a missing blob, nothing after the last |
| `BlobStores.ChunkStream.Collect` | crates/blobstore/src/manifest.rs:154-195 | concatenating the stream gives the file exactly when every blob is there |
| `Drafts.WriteIsOverlayIff` | crates/vfs/src/file.rs:219-226 | a positioned write to the staging file is the intended zero-filling overlay of the logical content if and only if no stray bytes lie in the gap it jumps over |
| `Drafts.FileWriteConcat` | crates/vfs/src/file.rs:252-257 | writing piece after piece is writing the pieces joined |
| `Drafts.OverlayAt` | crates/vfs/src/file.rs:219-226 | an overlay byte by byte: the bytes put at their place, zeros in the gap before them, and everything else as it was |
| `Files.WriteSucceedsIff` | crates/vfs/src/file.rs:207-233 | a write succeeds exactly on a write handle, if the disk takes all of it below the largest offset; a failed one leaves length, position and flags |
| `Files.WriteLands` | crates/vfs/src/file.rs:212-230 | a successful append puts the bytes after all that is there; any other write changes exactly the bytes from the position on |
| `Files.WriteStepEdits` | crates/vfs/src/file.rs:207-233 | a successful write with no stray bytes in the staging file is exactly that overlay, and leaves none |
| `Files.WriteStepEditsIff` | crates/vfs/src/file.rs:219-226 | after a failed write, exactly when a successful one still is |
| `Files.StrayBytesShow` | crates/vfs/src/file.rs:219-226 | a write the disk cuts short after which a successful write makes its stray bytes content |
| `Files.PaddingIsNotReadable` | crates/vfs/src/file.rs:158-201 | after writing nothing past the end, the staged zero byte cannot be read back through the handle |
| `Files.FlushCommits` | crates/vfs/src/file.rs:286-342 | a flush makes the staged bytes the node's content, whole and at the right size, and changes no other file's |
| `Files.FileHandle.NewWrite` | crates/vfs/src/file.rs:95-137 | staging starts from the existing content unless truncated, positioned at its end for append; fails exactly when a blob is missing or the disk is full |
| `Files.FileHandle.WriteBytes` | crates/vfs/src/file.rs:207-233 | the whole effect of a write, a partly refused one included |
| `Files.FileHandle.WriteBuf` | crates/vfs/src/file.rs:235-265 | over any segmentation, the same effect as writing the concatenation at once, also when part of it is refused |
| `Files.FileHandle.Seek` | crates/vfs/src/file.rs:267-284 | lands where the move says, by `BlobStores.MovesAgree`; a refused one changes nothing |
| `Files.FileHandle.Replay` | crates/vfs/src/file.rs:207-284 | any sequence of seeks, writes and segmented writes, append or not, does to the staged content what it means on a zero-padded byte string with a cursor, and succeeds exactly if every write fits |
| `Files.FileHandle.ReadBytes` | crates/vfs/src/file.rs:153-205 | read mode: the slice from the position of length min(count, rest), failing only for a missing chunk of that slice; write mode: the staged slice, failing exactly when the staging file is too short; an error keeps the position |
| `Files.SliceComesNext` | crates/vfs/src/file.rs:153-160 | what a read returns is what comes next, as much as asked for, and nothing exactly at the end or when nothing is asked for |
| `Files.FileHandle.ReadAllBytes` | crates/vfs/src/file.rs:153-205 | reads until nothing comes back, of any size, yield the content from the position to the end, and fail only if a chunk, or a staged byte, is missing |
| `Files.FileHandle.LoadChunk` | crates/vfs/src/file.rs:178-186 | the cached chunk is always the manifest's chunk of that index |
| `Files.FileHandle.Flush` | crates/vfs/src/file.rs:286-342 | commits exactly the zero-padded staged content, re-indexes, and stays dirty on failure |
| `Sessions.Save` | crates/vfs/src/file.rs:95-342 | open, edit and flush: this succeeds exactly if the path opens and every write fits, and then the path's current content is what the edits make of the content started from |
| `Sessions.RoundTrip` | crates/vfs/src/file.rs:143-342 | for every content and every path that opens for overwriting, what is written comes back byte for byte from a handle, the streaming reader and the chunk stream |
| `Sessions.ReadPath` | crates/vfs/src/davfs.rs:666-724 | opening any path for reading and reading to the end yields exactly the file's current content and changes nothing; collections are refused |
| `Sessions.ReadFromPosition` | crates/blobstore/src/manifest.rs:77-151 | after a seek to any position both readers yield the content from there on |
| `Sessions.ReadThreeWays` | crates/blobstore/src/manifest.rs:36-195 | the three readers agree on every stored file |
| `Streaming.StreamIsFaithful` | crates/webdav-server/src/main.rs:375-424 | under any scheduling and any loss of blobs, what the client has received is a prefix of the version, at most four chunks are queued, and an ended stream has the advertised length exactly when it is the whole version |
| `Streaming.StreamSucceeds` | crates/webdav-server/src/main.rs:396-413 | to a client that listens, of a version whose blobs stay in the store, every scheduling ends with the whole version delivered, and until then one of the two tasks can move |
| `Streaming.ErrorMeansMissing` | crates/webdav-server/src/main.rs:402-411 | an item received in place of a chunk is an error only if that chunk's blob was missing at some moment of the run, and bytes only if it was there at some moment |
| `Streaming.LossCutsStream` | crates/webdav-server/src/main.rs:402-411 | a stream whose first chunk is lost before it is read ends with the error and nothing else |
| `Streaming.DrainedIsWholeOrShort` | crates/webdav-server/src/main.rs:402-411 | an ended stream is whole, or ends in an error and is shorter than advertised |
| `Streaming.StreamEnds` | crates/webdav-server/src/main.rs:402-416 | no run has more producer and receiver moves than four per chunk and one, and where none is possible any more the stream has ended |
| `Streaming.StepKeepsInv` | crates/webdav-server/src/main.rs:396-413 | each step of producer, client and store keeps the chunks in order with an error only last, and takes nothing back that was received |
| `Civil.CivilIsValid` | crates/webdav-server/src/web.rs:465-478 | every day number gives a valid date, from which counting by the calendar's rules gives the day number back |
| `Civil.CivilInverts` | crates/webdav-server/src/web.rs:465-478 | every valid date is the date of exactly the day it counts to |
| `Civil.CivilSuccessor` | crates/webdav-server/src/web.rs:465-478 | the next day number is the next calendar day |
| `Civil.CivilIsInjective` | crates/webdav-server/src/web.rs:465-478 | distinct days have distinct dates |
| `Civil.CivilIsMonotone` | crates/webdav-server/src/web.rs:465-478 | later days have later dates |
| `Civil.Epoch` | crates/webdav-server/src/web.rs:465-478 | day 0 is 1970-01-01 |
| `Civil.FormatTimeIsExact` | crates/webdav-server/src/web.rs:453-463 | the stamp is a valid date and time of day denoting exactly the given second |

## Left out

- Timestamps, file modes and permissions, and `set_modified`: a separate column that nothing modelled depends on.
- SQL text, pragmas and the write-ahead log: each statement or transaction is one atomic step on the tables.
- Errors of SQLite, of the search index and of the disk other than those named: a missing blob, a blob that cannot be scanned or deleted, and a staging file the disk refuses to extend are modelled; a store that fails part-way through a flush is a step of `GcProtocol` only.
- Durability of blob renames before a metadata commit: the parent directory is never synced, so a crash may undo a rename; `CrashProtocol` allows that and claims nothing about the tables.
- Interleavings inside one `DavFs` operation, except those of the garbage-collection protocol and the races above: tree and index results are about operations run one at a time.
- Recovery of the index after its own failures, and text decoding with replacement characters: a document is the bytes of the content.
- Ranking, snippets and query syntax of the index: `Search` takes the ranking as a parameter. Hits fetched but ranked beyond the candidate pool of a scoped query are missed, as in the code.
- FastCDC boundaries, the larger chunks for media names, blake3 and the hexadecimal form of hashes.
- The HTTP layer: routing, locks, conditional requests, and the deletion of the destination before COPY and MOVE.
- `read_dir`, `list_dir`, `metadata`, `list_versions`, `read_version` and `read_current`: direct queries over state already modelled.
- The 64-bit overflow of `days + 719468`: the date results hold for all integers, and day numbers come from a count of seconds divided by 86,400, which is far from the limit.
- Civil.FormatTimeIsExact: is about times from the epoch on; earlier ones are shown as the epoch.
- DavFs.DavFs.Gc: counts the blobs it passes over, which the code's statistics do not report.
- Inners.Inner.ReferenceUnderGuard: the classes hold no lock, since one operation runs at a time there; the guard and what it protects are in `GcProtocol`.
- Files.FileHandle.Flush: likewise states nothing about the guard.
- Files.FileHandle.Replay: starts from a handle on which no write failed part-way, as every handle does; `Files.WriteStepEditsIff` says what holds after such a failure.
- Sessions.RoundTrip: assumes that the disk takes the content; `Files.FileHandle.WriteBytes` has the effect of a refused write.
