# Verification of the unidrive mount

unidrive's mount is a FUSE co-daemon: it answers the kernel from a few in-memory
maps and local cache files, and keeps them in step with a remote engine that it
reaches over a line-based socket protocol. This project models that state and the
algorithms on it, and proves what they keep over every run.

To verify: `dafny verify dfyconfig.toml`.

## What is modelled

* **Namespace.** `PathText` has the path arithmetic, `PathMap` the two hash maps that
  form the inode/path bijection, with the in-place algorithms proved against
  functions on values, and `PathMapLaws` what those functions keep. `MountState` has
  the mount's whole state and each FUSE operation as a function of it and of the
  outcomes of the engine, the kernel and the local disk. `MountLaws` says what the caller
  of each operation is told, in terms of names, handles, attributes and bytes and not of
  those functions: when it succeeds and with which error it fails otherwise, what has
  changed and what has not. `UnidriveFs` has the operations as methods that update the
  maps in place, each proved equal to its function and to obey its law. `MountRuns`, `VisibleNames`,
  `CachePaths`, `HandleLedger`, `CachedSizes`, `CloudContents` and `CloudPaths` prove
  invariants over every run of these operations: `CloudContents` names a file by its
  inode, `CloudPaths` by the path it is uploaded under, which renames move.
* **Write durability.** `Durability` splits fsync and release at their awaits: an
  upload's claim, the engine's read, the cloud's update and the end of the round trip
  are separate steps, interleaved with writes, truncations, other uploads and crashes.
  `DurableOperations` gives for every operation of `MountState` and its outcomes the
  sequence of such steps that it is, and shows that both leave the same handles, dirty
  bits, cache files and cloud contents. `Recovery` is the scan at start-up, `CacheWalk`
  its walk of the cache directory, `RecoveryWalk` both together.
* **Request channel.** `Framing` reads bounded lines from chunks of any size, `Ipc` has
  the round trip and the handshake, `Reconnect` the client that survives restarts,
  `HandshakeMessages` the byte strings both sides sign.
* **Change events.** `Subscription` keeps the event stream established and reads
  events; `ViewCoherence` runs listings, engine changes, a lossy stream, the queue of
  invalidations and local operations against each other.

Assumptions about the engine are spelled out where they are used: one reply line per
request (`Ipc.Honest`), file names in normalisation form C and a normalisation that is
idempotent and neither adds nor removes slashes (`PathText.NfcLaws`,
`VisibleNames.EntryOf`; section 1.2 of Unicode Standard Annex #15), fresh handle ids
(`HandleLedger.FreshId`), hydration that may bring in what another client wrote but leaves
alone a cache file that holds what the cloud has not (`MountRuns.EngineHydrates`), cache
files that lie where their path has them (`CloudPaths.EnginePlaces`) and move with it at a
rename (`MountState.MovedStore`), stamps no later than the read they stand for
(`Durability.Enabled`), and an event for every changed path while a stream is up
(`ViewCoherence.Enabled`). Of the kernel it is assumed that it renames only what it has
looked up (`CloudPaths.KernelLooksUp`) and that names are single components
(`MountRuns.KernelKeepsTo`). Calls into the engine, the kernel, the clock and the disk are
arguments: the results hold for every outcome.

## What turned out not to hold everywhere

Each of these has a lemma with a concrete input. The condition beside it is exact
where it is called so; for the last two only a sufficient one is proved.

* A handle id leaks when the local cache file cannot be opened after the engine has
  opened it (`HandleLedger.FailedOpenLeaks`; exact: `HandleLedger.OpKeepsLedger`).
* A cached size goes wrong when nothing is written beyond the end of a file, and when
  an operation fails after the cache file has changed
  (`CachedSizes.EmptyWriteBeyondTheEnd`, `CachedSizes.FailedTruncationKeepsSize`; exact:
  `CachedSizes.OpKeepsSizes`). The Linux kernel normally answers a write of no bytes
  itself and does not forward it.
* A rename does not forget the names remembered below its destination, so an entry can
  turn up under an older entry's name (`VisibleNames.StaleNameResurfaces`; exact:
  `VisibleNames.RenameTakesNameAlong`).
* The comment at mount/src/cache_scanner.rs:54-66 says that a cache file's time may be
  slightly below its stamp and that comparing with `>=` covers this; it covers ties
  only (`Recovery.LateStampHidesAWrite`; exact: `Recovery.ScanSyncs`).
* Names with backslashes can make two cache files share a remote path
  (`CacheWalk.BackslashesCollide`; exact: `CacheWalk.EmittedOnceUnlessClash`).
* An fsync that finds nothing dirty promises nothing about an upload another fsync has
  under way (`Durability.SecondFsyncPromisesNothing`; sufficient for it to promise
  something: `Durability.CleanHandleIsSynced`).
* What was cached before the first subscribe can stay stale
  (`ViewCoherence.FirstSubscribeTellsNothing`; sufficient for it not to:
  `ViewCoherence.DrainedViewIsCurrent`).

## Model

| member | source | states |
|---|---|---|
| PathText.MovedStaysBelow | mount/src/path_map.rs:90-118 | replacing a prefix lands at or below the new prefix, and replacing it back gives the old path |
| PathText.ShorteningKeepsCover | mount/src/path_map.rs:121-132 | shortening a path at its last slash keeps whether a root covers it |
| PathText.ChildPathParts | mount/src/fuse_fs.rs:611-623 | a child's path is never empty, its last component is the normalised name, its parent prefix the parent |
| PathText.TrimStartIs | mount/src/fuse_fs.rs:96-99 | exactly the leading slashes are cut off |
| PathMaps.PathMap.constructor | mount/src/path_map.rs:21-31 | a new map has the root as inode 1 and the empty path, and nothing else |
| PathMaps.PathMap.Intern | mount/src/path_map.rs:38-47 | a known path keeps its inode, a new one gets the next number; the maps stay inverse |
| PathMaps.PathMap.Forget | mount/src/path_map.rs:71-75 | exactly the path and its inode are dropped, the freed inode is returned |
| PathMaps.PathMap.Rename | mount/src/path_map.rs:90-118 | for any iteration order, the collect, remove and insert loops compute the prefix rewrite of each inode's path, also when source and destination overlap |
| PathMaps.PathMap.Sort | mount/src/path_map.rs:90-105 | whatever the order, what moves is what lies at or below the source, what goes stale the rest at or below the destination |
| PathMaps.ReinsertedIsRewrite | mount/src/path_map.rs:106-118 | removing what is stale or moves and reinserting what moves leaves inverse maps that are the rewrite |
| PathMaps.PathMap.InodesAtOrBelow | mount/src/path_map.rs:58-64 | exactly the inodes whose path is covered by a root |
| PathMaps.IsAtOrBelow | mount/src/path_map.rs:121-132 | the shortening loop holds iff the path is a root or extends a non-empty root at a slash |
| PathMapLaws.InternKeeps | mount/src/path_map.rs:38-47 | interning keeps the bijection, the root, and every other inode's path |
| PathMapLaws.ForgetKeeps | mount/src/path_map.rs:71-75 | forgetting keeps the map in order iff the path is not the root's |
| PathMapLaws.RenamedIsBijective | mount/src/path_map.rs:90-118 | a rename keeps the two maps inverse to each other |
| PathMapLaws.RenameKeeps | mount/src/path_map.rs:90-118 | a rename keeps the map in order iff it leaves the root alone; no dropped inode comes back |
| PathMapLaws.RenameByInode | mount/src/path_map.rs:90-118 | inode by inode: the new prefix plus the old suffix at or below the source, no path elsewhere at or below the destination, unchanged otherwise |
| PathMapLaws.RenameUndone | mount/src/path_map.rs:90-118 | renaming back restores every path but those the rename dropped |
| MountRuns.FollowStaysOnFile | mount/src/fuse_fs.rs:90-102 | a handle follows a rename exactly as the inode map moves its inode |
| MountRuns.MovedToKeepsOrder | mount/src/fuse_fs.rs:1785-1795 | after a rename the maps are in order and every handle is on its file |
| MountRuns.OpKeepsOrder | mount/src/fuse_fs.rs:736-1871 | every operation keeps the bijection and every handle whose inode has a path on that path |
| MountRuns.RunKeepsOrder | mount/src/path_map.rs:38-118 | over every run: inverse maps, root 1 and empty path, inodes below the counter, no dropped inode ever mapped again, open handles track the map |
| MountRuns.CreateAddsHandle | mount/src/fuse_fs.rs:1800-1871 | a create that succeeds adds one dirty handle on an empty file, one that fails adds none |
| CachePaths.FollowKeepsBase | mount/src/fuse_fs.rs:90-102 | following a rename keeps the base of a mirroring cache path, and a path that does not mirror |
| CachePaths.RunKeepsBase | mount/src/fuse_fs.rs:90-102 | over every run a cache path that was base plus relative remote path stays so with the same base while the handle is open |
| VisibleNames.RenameTakesNameAlong | mount/src/fuse_fs.rs:267-277 | moving the names below a path takes an entry's visible name along iff the entry has one remembered or none is remembered for its new path |
| VisibleNames.StaleNameResurfaces | mount/src/fuse_fs.rs:267-277 | a run from the new mount, four folders and a rename, after which an entry without a remembered name turns up under another's |
| VisibleNames.OpKeepsRaw | mount/src/fuse_fs.rs:248-277 | every operation keeps that remembered names normalise to their key's last component and differ from it |
| VisibleNames.RunKeepsRaw | mount/src/fuse_fs.rs:248-277 | the same over every run |
| VisibleNames.VisibleNameResolves | mount/src/fuse_fs.rs:201-206 | the name an entry is shown under leads back to its path |
| VisibleNames.VisibleNamesDiffer | mount/src/fuse_fs.rs:201-206 | two entries of a directory have the same visible name iff they are the same entry |
| VisibleNames.LookupFindsWhatReaddirShows | mount/src/fuse_fs.rs:736-788 | looking up a name that `readdir` showed gives the inode it gave; other spellings find nothing |
| VisibleNames.CollisionIsRefused | mount/src/fuse_fs.rs:213-244 | a create, mkdir or rename whose name falls together with a different visible name is refused and changes nothing but the listing's cache |
| VisibleNames.CreatedIsVisible | mount/src/fuse_fs.rs:1800-1871 | a created entry is found under the name it was given |
| MountLaws.RepresentableNames | mount/src/fuse_fs.rs:440-451 | which of the names at the borders a local entry can have |
| MountLaws.Utf8Append | mount/src/fuse_fs.rs:447-449 | the length of a name is the sum of its characters' lengths, of one to four bytes |
| MountLaws.LongNames | mount/src/fuse_fs.rs:447-449 | a name of one-byte characters is too long from 256 of them on |
| MountLaws.AttrDescribes | mount/src/fuse_fs.rs:58-73 | a cached attribute is the entry's size, times and states; the cloud's time is kept exactly for folders and what is not local |
| MountLaws.PopulatedCaches | mount/src/fuse_fs.rs:342-380 | a listing caches exactly what it offers besides what was cached, each attribute the old one or one that describes an entry listed at its inode's path |
| MountLaws.LookupLaw | mount/src/fuse_fs.rs:736-788 | a name is found iff it is the visible one and the entry is cached or offered by the listing |
| MountLaws.GetattrLaw | mount/src/fuse_fs.rs:382-415 | an inode has an attribute iff it is the root's, cached, or has a path the listing offers |
| MountLaws.ReaddirLaw | mount/src/fuse_fs.rs:1118-1182 | a directory with a path is listed, and everything offered is cached and mapped |
| MountLaws.OpenLaw | mount/src/fuse_fs.rs:813-938 | when an open succeeds, what handle, id, file content and cached size it gives, and what a failure leaves |
| MountLaws.WriteLaw | mount/src/fuse_fs.rs:962-996 | a write reads back, marks its handle and raises the cached size, and changes nothing else |
| MountLaws.FsyncLaw | mount/src/fuse_fs.rs:998-1064 | when an fsync succeeds, and that it sends the file exactly when the handle is dirty |
| MountLaws.ReleaseLaw | mount/src/fuse_fs.rs:1066-1116 | what was dirty is sent or its failure told, and only the handle and its id go |
| MountLaws.TruncateHandleLaw | mount/src/fuse_fs.rs:1484-1507 | a truncation through a handle keeps every byte below both sizes, fills with zeros, and leaves the handle dirty |
| MountLaws.TruncateZeroLaw | mount/src/fuse_fs.rs:1511-1558 | a truncation to nothing without a handle leaves an empty file, stored or told |
| MountLaws.TruncateToLaw | mount/src/fuse_fs.rs:1574-1638 | a truncation without a handle keeps every hydrated byte below both sizes, fills with zeros, and is stored or told |
| MountLaws.CreateLaw | mount/src/fuse_fs.rs:1800-1871 | when a create succeeds, the one entry, handle and file it makes, and that a failure makes none |
| MountLaws.MknodLaw | mount/src/fuse_fs.rs:1419-1468 | when a node is made, and that it leaves an empty file, stored or told, and no handle |
| MountLaws.MkdirLaw | mount/src/fuse_fs.rs:1269-1311 | when a folder is made, the one entry it makes, and that handles and files stay |
| MountLaws.RemoveLaw | mount/src/fuse_fs.rs:1313-1398 | when an entry is removed, exactly its path, inode, attribute and remembered names go |
| MountLaws.RenameLaw | mount/src/fuse_fs.rs:1739-1796 | when a rename succeeds, and that inodes, handles and remembered names follow it, for any nesting of source and destination |
| MountLaws.RenameKeepsShownName | mount/src/fuse_fs.rs:267-277 | a rename shows an entry below the source under the name it had iff it had one remembered or lands where none is |
| MountLaws.AppliedSpares | mount/src/fuse_fs.rs:125-148 | which attributes an applied change spares: those with unsent writes, and those it does not speak of |
| MountLaws.DirtyIsSpared | mount/src/fuse_fs.rs:126-135 | over every run no applied change drops the attribute of a mapped inode with a dirty handle |
| MountLaws.SparesMore | mount/src/view_refresh.rs:13-39 | one change after another spares what no change of them speaks of |
| HandleLedger.BareTruncationClosesItsId | mount/src/fuse_fs.rs:1511-1629 | both truncations without a handle close the id they use on every branch |
| HandleLedger.OpKeepsLedger | mount/src/fuse_fs.rs:849-936 | an operation keeps engine ids equal to open handles' ids iff no local open fails after the engine's |
| HandleLedger.RunKeepsLedger | mount/src/fuse_fs.rs:1066-1116 | over every run without such a failure the engine holds exactly the ids of the open handles |
| HandleLedger.FailedOpenLeaks | mount/src/fuse_fs.rs:896-907 | a run from the new mount whose second open leaves an id at the engine and no handle |
| CachedSizes.OpKeepsSizes | mount/src/fuse_fs.rs:880-1638 | an operation keeps cached sizes equal to cache-file lengths iff it is safe: not an empty write beyond the end, not failing after the file changed |
| CachedSizes.RunKeepsSizes | mount/src/fuse_fs.rs:880-1638 | over every run of safe operations through any handles a cached size is the length of the cache file |
| CachedSizes.EmptyWriteBeyondTheEnd | mount/src/fuse_fs.rs:989-994 | a run from the new mount, a create and an empty write, that makes a cached size wrong |
| CachedSizes.FailedTruncationKeepsSize | mount/src/fuse_fs.rs:1511-1558 | a run from the new mount that empties a file, fails to upload it and keeps its old cached size |
| CloudContents.OpKeepsCloud | mount/src/fuse_fs.rs:813-1660 | every operation with every outcome keeps that a cache file is in the cloud, has a dirty handle, or had a failure told |
| CloudContents.RunKeepsCloud | mount/src/fuse_fs.rs:813-1660 | the same over every run |
| CloudContents.MountLosesNoWrite | mount/src/fuse_fs.rs:962-1116 | after any run a cache file with no dirty handle and no told failure has its content in the cloud |
| CloudContents.FsyncOkMeansInCloud | mount/src/fuse_fs.rs:998-1064 | over every run an fsync that returns Ok on a dirty handle has put the content in the cloud; on a clean one it is there unless another handle is dirty or a failure was told |
| CloudContents.ToldMeansReported | mount/src/fuse_fs.rs:1083-1106 | a failure counts as told only when the operation returns an error or logs the upload of a release |
| CloudContents.ReleaseKeepsCloud | mount/src/fuse_fs.rs:1066-1116 | a release uploads what a dirty handle stands for, or its failure is told |
| CloudPaths.RenamingHolds | mount/src/fuse_fs.rs:1785-1791 | after a rename every file is still held under the new path of its inode: cache file, cloud copy, told failures and dirty handles move as the inode map does |
| CloudPaths.OpHolds | mount/src/fuse_fs.rs:736-1871 | every operation keeps that the cache file of a mapped inode lies under its path and is in the cloud under that path, has a dirty handle, or had a failure told for that path |
| CloudPaths.RunHolds | mount/src/fuse_fs.rs:736-1871 | the same over every run |
| CloudPaths.MappedFileIsInCloud | mount/src/fuse_fs.rs:962-1116 | after any run, renames, removals and replacements included, a mapped file with no dirty handle and no failure told for its path has its content in the cloud under the path of its inode |
| CloudPaths.FsyncOkIsUnderPath | mount/src/fuse_fs.rs:1013-1063 | over every run an fsync that returns Ok on a dirty handle has put the content in the cloud under the path the inode has then |
| CloudPaths.RenamedFileIsStoredThere | mount/src/fuse_fs.rs:1785-1791 | the model's runs have content: created, written, renamed while open and synced through the old handle, a file's bytes are in the cloud under the new path |
| UnidriveFilesystem.UnidriveFs.PopulateFromList | mount/src/fuse_fs.rs:342-380 | interns exactly the representable entries and overwrites their attributes |
| UnidriveFilesystem.UnidriveFs.RecordRawName | mount/src/fuse_fs.rs:248-255 | the entry is shown under the given name from now on, every other entry as before |
| UnidriveFilesystem.UnidriveFs.ForgetRawNames | mount/src/fuse_fs.rs:258-264 | entries at and below the path are shown under their last component from now on, all others as before |
| UnidriveFilesystem.UnidriveFs.RenameRawNames | mount/src/fuse_fs.rs:267-277 | for any iteration order, names below the source move to the new prefix, the source's own is dropped |
| UnidriveFilesystem.UnidriveFs.RefuseNfcCollision | mount/src/fuse_fs.rs:213-244 | refuses iff an entry is visible under other code points, cached or offered by the parent's listing; only a listing that is needed and fails is another error |
| UnidriveFilesystem.UnidriveFs.LookupName | mount/src/fuse_fs.rs:736-788 | a name is found iff it is the one the entry is shown under and the entry is cached or offered by the parent's listing; the inode has the entry's path and a cached attribute; what is cached is not listed again |
| UnidriveFilesystem.UnidriveFs.GetOrFetchAttr | mount/src/fuse_fs.rs:382-415 | succeeds iff the inode is the root's, cached, or has a path the listing offers; a cached one is not fetched again; no inode loses its path |
| UnidriveFilesystem.UnidriveFs.ReadDirectory | mount/src/fuse_fs.rs:1118-1182 | succeeds iff the directory has a path and is listed; shows every representable entry in order under an inode that has its path and its visible name, and the parent's inode for `..` |
| UnidriveFilesystem.UnidriveFs.OpenFile | mount/src/fuse_fs.rs:813-938 | succeeds iff the inode has a path other than the root's, the engine replies and the disk opens; the new handle has that path, the engine's cache path and a new id, and is dirty iff the file was emptied; the file holds what was hydrated or nothing, the cached size is its length |
| UnidriveFilesystem.UnidriveFs.WriteAt | mount/src/fuse_fs.rs:962-996 | succeeds iff the handle is open and the disk writes; the handle is dirty, the bytes read back where they were written, the rest of the file is unchanged or zeros, and the cached size is raised to their end; a failure changes nothing |
| UnidriveFilesystem.UnidriveFs.FsyncFile | mount/src/fuse_fs.rs:998-1064 | succeeds iff the handle is open, the disk syncs, and it is clean or its upload is stored; then it is clean and its file in the cloud; a failure leaves the dirty bit as it was, a clean handle sends nothing |
| UnidriveFilesystem.UnidriveFs.ReleaseFile | mount/src/fuse_fs.rs:1066-1116 | the handle is gone, its id not registered; a dirty one's file is in the cloud if the upload is stored, else the failure is told; names and attributes stay |
| UnidriveFilesystem.UnidriveFs.SetSize | mount/src/fuse_fs.rs:1470-1660 | with the exact error for each failing step, Ok means that the file is the old one cut to the size or filled up with zeros, the cached size is that, and the handle is dirty or the file in the cloud; a failure keeps the cached attributes |
| UnidriveFilesystem.UnidriveFs.SetBareZero | mount/src/fuse_fs.rs:1511-1558 | Ok iff the inode has a path, the engine empties the file and the upload is stored: an empty file in the cloud; on every exit the registered ids and the handles are as before |
| UnidriveFilesystem.UnidriveFs.SetBareSize | mount/src/fuse_fs.rs:1574-1638 | Ok iff the inode has a path, the engine hydrates, the disk resizes and the upload is stored: the hydrated content cut to the size or filled up with zeros, in the cloud; on every exit the registered ids and the handles are as before |
| UnidriveFilesystem.UnidriveFs.CreateInternal | mount/src/fuse_fs.rs:1800-1871 | Ok iff the parent has a path, the name is not barred, the engine creates and the disk opens: an empty file at the child's path, open and dirty under the engine's id, cached as new and shown under its name, all other names as before; a failure opens and remembers nothing |
| UnidriveFilesystem.UnidriveFs.MakeNode | mount/src/fuse_fs.rs:1419-1468 | Ok exactly for a regular node where a create succeeds: an empty file in the cloud or a told failure, with no handle left and its id not registered |
| UnidriveFilesystem.UnidriveFs.MakeDirectory | mount/src/fuse_fs.rs:1269-1311 | Ok iff the parent has a path, the name is not barred and the engine makes it: a folder that is mapped, cached and shown under its name, all other names as before; handles and files are never touched |
| UnidriveFilesystem.UnidriveFs.RemoveEntry | mount/src/fuse_fs.rs:1313-1398 | Ok iff the parent has a path and the engine removes: the path has no inode, its inode neither path nor attribute, no name is remembered at or below it, all else stays; a failure changes nothing |
| UnidriveFilesystem.UnidriveFs.RenameEntry | mount/src/fuse_fs.rs:1739-1796 | Ok iff both parents have paths, the new name is not barred and the engine renames: every inode, open handle and remembered name at or below the source gets the new path, what was below the destination loses its path, all else stays; a failure changes none of them |
| UnidriveFilesystem.UnidriveFs.Apply | mount/src/fuse_fs.rs:125-148 | an attribute survives if a dirty handle has its path, else, for a mapped inode, iff the change is not all and names neither its path nor a folder above it; nothing else changes |
| UnidriveFilesystem.UnidriveFs.DrainPending | mount/src/view_refresh.rs:13-39 | after the queue is applied in order, an attribute survives if a dirty handle has its path, else, for a mapped inode, iff no queued change speaks of its path |
| Durability.NoLostWrite | mount/src/fuse_fs.rs:972-1106 | in every state of every interleaving a version the cloud lacks has a dirty handle, an upload under way, or a failure that was told, or was left by a crash: a dirty handle it dropped or an upload of the crashed process that then failed |
| Durability.CrashLeaves | mount/src/cache_scanner.rs:12-15 | a crash leaves no handle, changes no cache file and nothing in the cloud, and what the cloud lacks is with an orphaned upload, told, or left |
| Durability.QuietMeansSynced | mount/src/fuse_fs.rs:1083-1106 | with nothing dirty, under way, failed or left for a file, the cloud has what the cache has |
| Durability.FsyncOkIsDurable | mount/src/fuse_fs.rs:1013-1063 | a claiming fsync that returns Ok has put every write finished before its claim in the cloud for good |
| Durability.SecondFsyncPromisesNothing | mount/src/fuse_fs.rs:1041-1043 | a run in which an fsync finds the bit clear and returns while the upload of another is still to come |
| Durability.CleanHandleIsSynced | mount/src/fuse_fs.rs:1041-1043 | an fsync that finds the bit clear has the handle's writes in the cloud if none is under way, failed or left |
| Durability.StepKeepsInv | mount/src/fuse_fs.rs:972-1106 | every step keeps all versions accounted for, uploads sound, stamps no later than unsynced changes, and what the cloud has grows |
| Durability.RunKeepsInv | mount/src/fuse_fs.rs:972-1106 | the same over every run |
| DurableOperations.WriteIsSteps | mount/src/fuse_fs.rs:962-996 | a write is the one step that edits the file and marks its handle, an empty one marks alone, and both leave the same handles, files and cloud |
| DurableOperations.FsyncIsSteps | mount/src/fuse_fs.rs:998-1064 | a dirty fsync is claim, read, store and end, or claim and failing end, by its outcome; a clean one is no step |
| DurableOperations.ReleaseIsSteps | mount/src/fuse_fs.rs:1066-1116 | a release is the drop of its handle and, if it was dirty, an upload to its end |
| DurableOperations.OpenIsSteps | mount/src/fuse_fs.rs:813-938 | an open hydrates what is not cached or brings in new content, and adds a clean handle, or empties the file and adds a dirty one, or fails |
| DurableOperations.OpIsSteps | mount/src/fuse_fs.rs:736-1871 | every operation is the steps `StepsOf` gives for its outcomes, with no upload left under way and the same handles, dirty bits, cache files and cloud |
| DurableOperations.RunIsSteps | mount/src/fuse_fs.rs:736-1871 | every run is the run of its operations' steps and agrees with it after every operation |
| DurableOperations.MountLosesNoWrite | mount/src/fuse_fs.rs:962-1116 | after exactly these steps, nothing being under way, a file the cloud lacks has a dirty handle or a failure that was told; nothing is left behind |
| Recovery.ScanAndReplay | mount/src/cache_scanner.rs:15-86 | uploads exactly the files that are not older than their stamp, skips failures, counts acknowledged uploads, under distinct ids; asks only for files whose time and stamp could be had |
| Recovery.ScanSyncs | mount/src/cache_scanner.rs:54-79 | a scan whose calls succeed leaves a file unsynced iff it was and the walk misses it or it is older than its stamp |
| Recovery.ScanSyncsExactly | mount/src/cache_scanner.rs:33-79 | whatever calls fail: a scan syncs exactly the files that were found, could be read and looked up, are not older than their stamp and were stored |
| Recovery.ScanAfterAnyCrash | mount/src/cache_scanner.rs:15-86 | after a crash at any step of any run a successful scan over all cache files leaves the cloud with what every file holds |
| Recovery.TiesMatter | mount/src/cache_scanner.rs:54-69 | a run to a crash state where only a comparison that counts ties finds the file |
| RecoveryWalk.WalkFindsAll | mount/src/cache_scanner.rs:27-34 | the files the walk emits are exactly the cache files |
| RecoveryWalk.WalkAndScanAfterAnyCrash | mount/src/cache_scanner.rs:15-141 | after a crash at any step, walking the cache directory and uploading what it emits gives the cloud what every cache file holds |
| Recovery.LateStampHidesAWrite | mount/src/cache_scanner.rs:54-69 | a stamp later than the read it stands for hides a write from every scan |
| CacheWalk.CollectFiles | mount/src/cache_scanner.rs:84-141 | the explicit-stack loop ends and emits every regular file in readable directories exactly once and nothing else, or fails iff reading a directory does |
| CacheWalk.ReadDirectory | mount/src/cache_scanner.rs:97-138 | each entry of a directory goes to the output, to the stack or is skipped; nothing is lost |
| CacheWalk.ReachedIsEmitted | mount/src/cache_scanner.rs:84-141 | a file reached by names through readable directories is emitted under their slash-rooted path |
| CacheWalk.EmittedIsReached | mount/src/cache_scanner.rs:84-141 | every emitted path is that of a reached file |
| CacheWalk.FailsAtBroken | mount/src/cache_scanner.rs:97-99 | a walk that fails has got to a directory whose reading fails |
| CacheWalk.BrokenFails | mount/src/cache_scanner.rs:97-99 | a directory whose reading fails, reached through readable ones, makes the walk fail |
| CacheWalk.EmittedOnce | mount/src/cache_scanner.rs:131-137 | emitted paths are distinct when names hold no backslash |
| CacheWalk.EmittedOnceUnlessClash | mount/src/cache_scanner.rs:131-137 | emitted paths are distinct iff no two files have the same names once those are cut at their backslashes |
| CacheWalk.RemoteIsPath | mount/src/cache_scanner.rs:135-137 | a file's remote path is its names, cut at their backslashes, each after a slash |
| CacheWalk.BackslashesCollide | mount/src/cache_scanner.rs:135-137 | two files that share a remote path |
| Framing.LineReader.ReadUntil | mount/src/ipc.rs:53-55 | bytes are taken up to the newline, the limit or the end, never past the newline and never more than the limit |
| Framing.LineReader.ReadInboundLine | mount/src/ipc.rs:47-77 | for any chunking, consumes through the first newline; a line iff it fits the limit, otherwise too long; end of file and errors told apart; ends and holds at most the limit |
| Framing.ReadsStayInStep | mount/src/ipc.rs:42-46 | the n-th read returns the n-th message or says it was too long |
| Ipc.RoundTrip | mount/src/ipc.rs:377-409 | what arrives decides: a whole line that fits and parses is the reply, one that does not is malformed, a lost connection is an Io error, after which it is dead; the reply is the engine's line for this request; nothing is left unread; an oversized request is not sent |
| Ipc.Handshake | mount/src/ipc.rs:181-216 | succeeds iff challenge and proof were answered and the engine's proof accepted; each step is sent as long as the one before is answered; refused for good iff there is no nonce, the engine says no or its proof is not accepted; an Io error iff the last reply is one; no verb is sent |
| Ipc.Connect | mount/src/ipc.rs:143-179 | opens iff the listener accepts and, under authentication, the handshake succeeds or, without a token, the engine knows no handshake; refused for good iff the token is unreadable, the handshake is refused or a new engine is met without a token |
| Reconnect.ReconnectingIpcClient.EnsureConnected | mount/src/reconnect.rs:106-139 | takes the first dial of the script that opens and stops at the first that is refused for good; else gives up only after the budget, within a bounded number of attempts; a refusal is final |
| Reconnect.ReconnectingIpcClient.Attempt | mount/src/reconnect.rs:142-147 | one attempt gives a connection iff its dial opens, and is refused for good iff the dial turns it away |
| Reconnect.AttemptsBound | mount/src/reconnect.rs:129-135 | the bound is the budget over the interval, rounded up, plus one |
| Reconnect.ReconnectingIpcClient.RetryIo | mount/src/reconnect.rs:153-169 | while there is a connection the call ends by the reply to its last exchange; without one it was refused for good or the reconnect is exhausted |
| Reconnect.ReconnectingIpcClient.NoRetryOnIo | mount/src/reconnect.rs:171-185 | sends its request at most once and ends by the reply to it; the connection is dropped iff it was lost |
| Reconnect.ReconnectingIpcClient.Call | mount/src/reconnect.rs:187-260 | each verb under its policy: the mutating ones are sent at most once, the idempotent ones fail with Io only from an exhausted reconnect; the call ends by the reply to its own last exchange, which is the engine's line; after a refusal nothing is opened or sent |
| HandshakeMessages.ClientMessageReadsBack | mount/src/ipc_auth.rs:82-84 | profile, nonce and server nonce are recovered for any profile bytes |
| HandshakeMessages.ServerMessageReadsBack | mount/src/ipc_auth.rs:86-91 | the client proof is recovered as well |
| HandshakeMessages.SidesDiffer | mount/src/ipc_auth.rs:82-91 | no client message equals a server message |
| HandshakeMessages.MessagesTellFieldsApart | mount/src/ipc_auth.rs:82-91 | different fields give different messages |
| HandshakeMessages.KnownClientMessage | mount/src/ipc_auth.rs:82-84 | the client message byte for byte on a small profile |
| HandshakeMessages.KnownServerMessage | mount/src/ipc_auth.rs:86-91 | the server message byte for byte on a small profile |
| HandshakeMessages.BarsConfuse | mount/src/ipc_auth.rs:82-84 | without the alphabet's restriction two sets of fields share a message |
| Subscription.RunSubscription | mount/src/subscribe.rs:70-117 | the consumer sees a prefix of the trace of established streams, ended only by its own refusal, a refused authentication or the end of the attempts |
| Subscription.ReadEvents | mount/src/subscribe.rs:103-114 | one stream's lines in order until it drops or the consumer stops |
| Subscription.EstablishedInTurn | mount/src/subscribe.rs:78-114 | a stream counts wherever it comes, a failed connect or subscribe does not, and after a refused authentication nothing does |
| Subscription.TraceTellsStreams | mount/src/subscribe.rs:97-101 | cutting the trace at its gaps gives back every established stream: one gap between two, none before the first |
| Subscription.GapsAreStreamsMinusOne | mount/src/subscribe.rs:98-101 | gaps are the established streams minus one |
| Subscription.InvalidationOf | mount/src/subscribe.rs:38-65 | the list-building loop gives the listed paths iff every one is a path other than the root, otherwise everything |
| Subscription.HitsWhatIsSaid | mount/src/subscribe.rs:38-65 | an event's invalidation hits a path iff the event says it may have changed or is a gap |
| ViewCoherence.StepKeepsCoherence | mount/src/fuse_fs.rs:125-148 | every step keeps each spoken-of attribute current or about to be dropped |
| ViewCoherence.ApplyKeepsPending | mount/src/fuse_fs.rs:125-148 | an attribute left cached by an applied change was not hit by it |
| ViewCoherence.ListKeepsCoherence | mount/src/fuse_fs.rs:342-380 | a listing makes what it lists current and leaves the rest as it was |
| ViewCoherence.DrainedViewIsCurrent | mount/src/view_refresh.rs:13-39 | once the stream is up and every event applied, an attribute listed since the first subscribe, and not touched locally since it was last listed, is what the engine would list now |
| ViewCoherence.FirstSubscribeTellsNothing | mount/src/subscribe.rs:98-101 | a run in which a change before the first subscribe is never told |
| ViewCoherence.ToldChangeIsApplied | mount/src/view_refresh.rs:13-39 | a run in which a change is told, read and applied, after which the stale attribute is gone |
| ViewCoherence.ListingComesFirst | mount/src/fuse_fs.rs:342-380 | an operation that gets a listing is the listing followed by the operation without one |

## Left out

- PathMaps.PathMap.Intern: inode and handle counters are unbounded; the wrap-around of the 64-bit counter is not modelled, it is out of reach of any mount's life.
- MountRuns.RunKeepsOrder: each FUSE operation is one step; `open` resolving its path before its await, and other lock interleavings, are not modelled, except that `Durability` splits uploads at their awaits.
- UnidriveFilesystem.UnidriveFs.OpenFile: handles are values in the table, not file objects; a failing `metadata` call, which leaves the cached size alone, and the direct-io flag are not modelled.
- The attributes that `lookup`, `create` and `setattr` send along with their answer, beyond those `getattr` gives: not modelled.
- UnidriveFilesystem.UnidriveFs.ReadDirectory: offsets, entry kinds and the attributes `readdirplus` adds to the same entries are not modelled.
- CachedSizes.RunKeepsSizes: covers operations that get no listing, since a listing overwrites cached sizes unconditionally, dirty or not.
- ViewCoherence.DrainedViewIsCurrent: does not speak, until it is listed again, of an attribute that a local operation has set or moved since it was last listed, since it then says what the mount did and not what the engine lists, nor of one that a dirty handle kept from an applied change.
- Durability.NoLostWrite: an upload ends with its round trip; a store that reaches the cloud after the reply was given up, or after a crash of the co-daemon once a later upload has begun, is not modelled.
- CloudContents.MountLosesNoWrite: an upload that fails has left the cloud as it was, one whose reply is lost has stored the file; a file is named by its inode, also once it is removed (`CloudPaths` has what lies under each path).
- CloudPaths.MappedFileIsInCloud: speaks of files whose inode has a path; a removed file that is still open is not covered. The engine's books start empty: cache files of an earlier mount are those of `Recovery`.
- Other clients: another client's change reaches a cache file when the mount hydrates it; what the cloud holds in between, and conflicts with unsent local writes, are the engine's.
- Recovery.ScanAndReplay: file times and stamps are natural numbers of milliseconds; negative ones are not modelled.
- CacheWalk.CollectFiles: a directory is read as it was when the walk started; lossy decoding of names that are not UTF-8 is not modelled.
- Reconnect.ReconnectingIpcClient.RetryIo: the engine's behaviour is a finite script after which nothing answers, since the loop has no bound of its own while reconnects keep succeeding; the interval is positive.
- Ipc.Handshake: printing and parsing of JSON, HMAC and base64 are parameters; nonces come from the script.
- Subscription.RunSubscription: attempts are a finite script; the stream's own connection, handshake and framing are those of `Ipc` and `Framing` and are not repeated here.
- HandleLedger.RunKeepsLedger: ids are tags with numbers, their decimal text is not modelled; a reconnect, after which the engine forgets a connection's ids, is not either.
- The retry of the very first connect at start-up: a simpler loop of the same kind as the reconnect.
- Reading file data, extended attributes, quota and statfs arithmetic, permissions, times and the once-per-name warnings: single branches or input and output.
- Sockets, the async runtime, cancellation, signals, locks between processes, command line, logging and version output.
