# Distribyted: a model of the virtual filesystem and its service machines

Distribyted shows torrents as a filesystem. This project models, in Dafny, the parts of it that keep
state which has to stay consistent, and proves what they keep. The modules follow the repository's files:

- `Numbers`, `Paths`, `StoragePaths`, `PathTrees`: 64-bit arithmetic, sums over maps, and paths: Go's
  `path.Clean`, `Split`, `Dir`, `Ext` and `Join` character by character, and `clean` of `fs/storage.go` on
  top of them.
- `Files`, `StorageTree`, `Storage`, `TreeLaws`, `ArchiveSizes`, `MountLaws`, `MountRuns`
  (`fs/storage.go`): the class `Storage` with its maps, its aliased `Dir` objects and its cached mount
  list. Every method is proved against an effect on the tree of files, listings and sizes (`AddEffect`,
  `ParentEffect`, `MountEffect`); the laws are then proved about those effects: coherence, size
  conservation, longest-prefix lookup, and, over every run, the agreement of files, listings, filesystems
  and mounts.
- `OverlayIndex`, `OverlayLister`, `Overlay` (`torrent/overlay_lister.go`, `fs/overlay.go`): the index of
  cached torrents, the listing of one directory out of it, and the filesystem that merges it with a
  storage.
- `DiskTee` (`iio/disk.go`, `iio/wrapper.go`): random access to a one-way stream, and a cursor over it.
- `TorrentReader`, `ReaderPool`, `TorrentFs` (`fs/torrent.go`): what one pooled reader does, the pool as an
  interleaving of steps, and the lazily filled storage of a route.
- `EventCounter` (`torrent/watchers/manager.go`) and `WorkerPool` (`torrent/service.go`): two concurrent
  protocols as state machines, with theorems over every run.
- `FolderSync` (`torrent/service.go`): reconciling a folder with the tracked torrents.
- `Pages` with `RouteStats` (`torrent/stats.go`, `torrent/service.go`): pages of a route's torrents.
- `KeyStore` (`torrent/loader/db.go`): three namespaces of records in one key-value store.
- `HandleTable` (`fuse/mount.go`): open file handles.

A loop over a Go map takes its keys in any order: `var k :| k in todo` picks any of those left, so what is
proved holds for every order. Each locked section, channel operation and atomic operation is one step.

## Where the code and what is said about it differ

The model follows the code. Where the code does less than its documentation, its tests or its evident
intent, the exact condition is proved, often with a concrete counterexample beside it:

- `Add` of a file whose extension has a factory records a filesystem but does not rebuild the mount list,
  so the archive cannot be found, although fs/storage_test.go:68-73 expects it
  (`MountLaws.AddReachableIff`). It is listed and not stored, which breaks the tree
  exactly then (`TreeLaws.ArchiveCoherentIff`), and it is counted in the directories above it, once more
  each time it is added (`ArchiveSizes.StepBalances`).
- `Add` below a regular file fails but leaves the new key stored (`TreeLaws.RefusedAddOrphans`,
  `TreeLaws.AddCoherentIff`).
- Mounts match by string prefix, so /ab answers for /abc (`MountLaws.PrefixOwnsIff`).
- A second `AddFS` at a mounted path returns nil, although fs/storage_test.go:126-127 expects an error
  (`Storage.Storage.AddFS`).
- `RemoveFS` is documented as safe when nothing is mounted, but at a stored path it removes the name of the
  file (`MountRuns.UnmountAgreesIff`).
- A refused `AddFS` leaves its mount recorded, and no listing names it (`MountRuns.MountAgreesIff`).
- A listing can show what does not open: cleaned on the way, a directory such as "a/" may be another one to
  the index (`Overlay.FoundAgainIff`, `Overlay.Overlay.UncleanNameListsUnopenable`). Only a direct caller asks
  for such a directory: behind a mount it is the rest of a key, which is harmless where the match stops at a
  segment boundary (`Overlay.SuffixIsStable`).
- `DiskTeeReader.fo` counts bytes returned, not bytes teed, so re-reading starves later reads
  (`DiskTee.ReadAtFullIff`, `DiskTee.RereadStarves`).
- `RemoveTorrent` empties the whole tree but forgets only one torrent, so the others vanish
  (`TorrentFs.RemovalKeepsWholeIff`, `TorrentFs.RemovalLosesOthers`).
- A failed sync acknowledges its events all the same, and they are lost until something else changes
  (`EventCounter.EventsLostIff`, `EventCounter.FailedSyncLosesEvents`).
- A sync drops a torrent that another tracked file still holds, so renaming a .torrent file loses it
  (`FolderSync.SyncKeepsServedIff`, `FolderSync.RenameDropsTheTorrent`), and it takes files of a sibling
  folder whose path merely starts with the folder's for its own (`FolderSync.OtherFoldersKeptIff`).
- Two torrents of one name make pages ambiguous (`Pages.OnlyOrderIffDistinctNames`,
  `Pages.SameNameRepeats`).
- A route of more than one path segment cannot be read back from its key, and with enough ".." its key
  lies in another namespace (`KeyStore.DecodesIffSegment`, `KeyStore.KeyLandsIff`, `KeyStore.RouteEscapes`).
- `RemoveFromHash` reports success for a key that is not there, although torrent/loader/db_test.go expects
  false for another route (`KeyStore.DB.RemoveFromHash`).
- A handle outside the table makes `Remove` panic (`HandleTable.FileHandler.Remove`).

## Model

| member | source | states |
|---|---|---|
| `Paths.StepsOfRender` | fs/storage.go:229-231 | Rendering a canonical list of segments and splitting the result again gives the list back, so clean paths are exactly rendered segment lists |
| `Paths.CleanIdempotent` | fs/storage.go:229-231 | Cleaning a clean path changes nothing |
| `Paths.DirOfRender` | fs/storage.go:127-129 | On clean paths the directory part drops the last segment and the base part is that segment |
| `Paths.ExtOfDotted` | fs/storage.go:112 | The extension of a path starts at the last dot of its last element |
| `Paths.ExtOfPlain` | fs/storage.go:112 | A last element without a dot has no extension, whatever dots its directories have |
| `StoragePaths.CleanKeyIsKey` | fs/storage.go:229-231 | What `clean` returns is a fixed point of `clean`, whatever mixture of slashes, backslashes and dots went in |
| `StoragePaths.CleanKeyOfDots` | fs/storage.go:229-231 | Behind a key a slash and "/." change nothing, and "/.." leads to its parent |
| `StoragePaths.CleanKeyOfBackslash` | fs/storage.go:230 | A backslash separates like a slash, and none is left in a key |
| `StoragePaths.KeyParent` | fs/storage.go:164-165 | The parent of a key other than the root is a strictly shorter key: the ancestor walk and the recursion of `Add` end at the root |
| `StoragePaths.KeyDetermined` | fs/storage.go:128-140 | A key is determined by its parent and its name, so listings by name cannot confuse two keys |
| `Storage.Storage.GetFileFromFs` | fs/storage.go:203-215 | Answers from the first cached mount that is a string prefix: an empty Dir at the mount itself, the mount's own answer below it |
| `Storage.Storage.Has` | fs/storage.go:54-67 | True exactly for stored files and for what the first prefixing mount opens |
| `Storage.Storage.Get` | fs/storage.go:189-201 | Succeeds exactly when `Has` does; gives the very object stored at the key, or, with a current list, the very object the longest mounted prefix opens below it, and a fresh empty Dir at the mount itself |
| `Storage.Storage.AddSizeToAncestors` | fs/storage.go:151-167 | Grows exactly the Dirs at and above the start, through the aliased objects, and ends at the root |
| `Storage.Storage.Add` | fs/storage.go:100-125 | New keys are the missing ancestors and the key itself, every old object stays, listings name the new objects, sizes grow along the ancestors; the result says whether the nearest existing ancestor is a directory; without mounts a good tree stays good exactly on success or a present key. Ends by a lexicographic measure of path length and presence, through the mutual recursion and the root adding itself. Afterwards the path answers exactly if it has no archive's extension; an archive is recorded as the filesystem its factory makes of the file; at a path that answers nothing changes, and the call fails exactly if it answers with a file |
| `Storage.Storage.CreateParent` | fs/storage.go:127-149 | What the recursion does in mid-invariant, when the key is stored and its parents are not: it creates what is missing above, names the object in its parent, and credits the size once to every ancestor |
| `Storage.Storage.Clear` | fs/storage.go:45-52 | Leaves exactly an empty root directory in a good tree, with nothing mounted |
| `Storage.Storage.GetDirFromFs` | fs/storage.go:217-227 | Lists through the first prefixing mount, with the path that mount is asked for |
| `Storage.Storage.Children` | fs/storage.go:169-187 | A mount's listing, or a fresh copy of the storage's own; errors other than not-exist pass through |
| `Storage.Storage.RefreshMounts` | fs/storage.go:233-246 | From any map order the in-place sort leaves every mounted key once, longest first |
| `Storage.Storage.AddFS` | fs/storage.go:69-84 | Where nothing answers, the mount is recorded in an up to date list and found there, and the call returns nil exactly when the nearest thing above is no file; where a directory answers, nothing changes and the call succeeds; where a file answers, it fails |
| `Storage.Storage.RemoveFS` | fs/storage.go:86-98 | Exactly that mount goes and the list is current; the name is taken out of the parent's listing even if a file is stored there |
| `Storage.Storage.Remount` | torrent/service.go:301-316 | After RemoveFS and AddFS the new filesystem is mounted and found exactly when nothing else answered at the path |
| `StorageTree.MountFindsItself` | fs/storage.go:203-215 | In a list sorted longest first a mounted path finds its own mount |
| `TreeLaws.AddedKeys` | fs/storage.go:100-149 | After an Add exactly the old keys and the ancestors of the new one are stored, the old objects unchanged, the ancestors as new Dirs |
| `TreeLaws.AddKeepsCoherence` | fs/storage.go:100-149 | An accepted Add keeps files and listings one tree: every key hangs from a stored directory that lists the very same object, and nothing else is listed |
| `TreeLaws.AddCoherentIff` | fs/storage.go:121-133 | Add keeps the tree coherent exactly when it succeeds or finds its key stored |
| `TreeLaws.RefusedAddOrphans` | fs/storage.go:121-133 | An Add refused because an ancestor is a file leaves the new key stored and unlisted |
| `TreeLaws.AddKeepsSizes` | fs/storage.go:139-167 | Size conservation: an accepted Add of a file or an empty Dir keeps every directory's size equal to the sum of the files strictly below it, in 64-bit arithmetic |
| `TreeLaws.AddLaw` | fs/storage.go:100-149 | Coherence and exact sizes together survive an Add exactly when it succeeds or finds its key stored |
| `TreeLaws.RunsStayGood` | fs/storage.go:45-149 | Over every sequence of Add and Clear the tree stays coherent with exact sizes as long as no Add is refused at a new key, and the first that is breaks it |
| `TreeLaws.PlainAdd` | fs/storage.go:112-122 | In a storage with factories an Add that opens no archive does what it does without them, so all laws of Add hold for it |
| `TreeLaws.ArchiveCoherentIff` | fs/storage.go:112-149 | With factories an accepted Add keeps the tree coherent exactly when it opens no archive, neither the file nor a missing directory above it |
| `TreeLaws.ArchiveListed` | fs/storage.go:113-140 | An opened archive is named in its parent's listing but not stored |
| `TreeLaws.AddedChain` | fs/storage.go:100-133 | Adding a file stores exactly the unarchived keys at and above it that were not stored, even if the file is refused |
| `TreeLaws.ListingIsChildren` | fs/storage.go:169-187 | A listing names a child exactly when the child is stored, as the same object: Get, Has and Children agree |
| `TreeLaws.RootAccountsForAll` | fs/storage.go:151-167 | The root's size is the sum of all files |
| `ArchiveSizes.StepBalances` | fs/storage.go:112-167 | With factories an accepted Add keeps every Dir's size equal to the stored files and the opened archives below it; an archive added again is counted again |
| `ArchiveSizes.RunsStayBalanced` | fs/storage.go:45-167 | So over every run of Clear and of Adds that are not refused at a new key, archives opened on the way |
| `ArchiveSizes.BalancedIsExact` | fs/storage.go:151-167 | Without archives this is the exactness of the sizes of stored files |
| `MountLaws.LookupIsLongestPrefix` | fs/storage.go:203-215 | Scanning the sorted list finds the unique longest mounted string prefix of the path |
| `MountLaws.LookupIgnoresOrder` | fs/storage.go:233-246 | Two lists built in different map orders answer every path alike |
| `MountLaws.PrefixOwnsIff` | fs/storage.go:205-210 | The mount found by string prefix is the one that owns the path in the tree exactly when the match stops at a segment boundary |
| `MountLaws.PrefixCrossesBoundary` | fs/storage.go:205 | The match can stop inside a segment: the mount /ab is found for the key /abc, which is not below it |
| `MountLaws.NoPrefixNoOwner` | fs/storage.go:203-215 | When no mount matches, no mount is at or above the path |
| `MountLaws.AddReachableIff` | fs/storage.go:112-124 | After Add at a path where nothing answered, something answers there exactly when the path has no archive's extension: a recorded archive is not reachable |
| `MountLaws.RebuiltListReaches` | fs/storage.go:233-246 | Once the list is rebuilt every recorded filesystem, archives included, answers at its path |
| `MountLaws.MountListCurrentIff` | fs/storage.go:81-83 | The list is still current after AddFS exactly when creating the parents recorded no new archive |
| `MountLaws.MountForeseen` | fs/storage.go:81-83 | Once its mount is recorded AddFS finds and misses the same directories above its path as before the call: what it returns and which parents it makes can be told beforehand |
| `MountLaws.RemoveKeepsHangingIff` | fs/storage.go:88-97 | In any tree, mounts or none, RemoveFS leaves every stored key hanging from a directory that lists it exactly when it did before and no file is stored at the path |
| `MountRuns.NewStorageAgreed` | fs/storage.go:36-43 | A new storage is in agreement: its mount list is current, and its listings name exactly what is stored or mounted |
| `MountRuns.AddAgreesIff` | fs/storage.go:100-149 | With filesystems mounted, Add keeps the agreement of files, listings, filesystems and mounts exactly when its key answers already, or when it succeeds and opens no archive |
| `MountRuns.MountAgreesIff` | fs/storage.go:69-84 | AddFS keeps the agreement exactly when something answers already, or when the nearest thing above its path is a directory and no directory missing there has an archive's extension, all told from the storage before the call; refused, it leaves a mount no listing names |
| `MountRuns.UnmountAgreesIff` | fs/storage.go:86-98 | RemoveFS keeps the agreement exactly when no file is stored at its path |
| `MountRuns.RunsAgree` | fs/storage.go:45-149 | Over every run of Add, AddFS, RemoveFS and Clear, whatever mounted filesystems answer in between, the four structures agree as long as each call can do what it is asked to or finds its path answering, opens no archive, and removes no stored file's name, all told from the moment before it; the first that does not breaks it |
| `MountRuns.CallCurrentIff` | fs/storage.go:69-125 | A call leaves a current mount list current exactly when it opens no archive |
| `MountRuns.RunsLookUpLongest` | fs/storage.go:203-246 | After every history of mounts, unmounts and adds that opens no archive, refused ones included, lookup gives the longest mounted prefix of every path |
| `OverlayIndex.CreditParents` | torrent/overlay_lister.go:36-44 | The walk up adds the length to every proper ancestor of the path, once, and to nothing else |
| `OverlayIndex.EntryPlaced` | torrent/overlay_lister.go:33-35 | A file is indexed under its torrent's name followed by the segments of its own path, with its own length |
| `OverlayIndex.AddState` | torrent/overlay_lister.go:31-56 | One summary adds its entries to the sums and records its files and its root, which shows what its files add up to, else the size of the summary, else its pieces, else 0 |
| `OverlayIndex.BuildOverlayIndexes` | torrent/overlay_lister.go:18-59 | For every map order: exactly the routes that a summary with a name has, each directory the sum of the entries below it, exactly the expected keys; while no file is another or lies below another every file has its own length, and with distinct names every root its own size |
| `OverlayLister.List` | torrent/overlay_lister.go:62-96 | For every map order the result is the one order-free listing, in which an explicit entry beats a derived directory |
| `OverlayLister.RootedListing` | torrent/overlay_lister.go:65 | A leading slash makes no difference |
| `OverlayLister.TopNames` | torrent/overlay_lister.go:67-75 | The top of a route, asked for as "" or "/", lists exactly the first segments of its paths, each as itself if it is a path, else as a directory with its sum |
| `OverlayLister.TopContribution` | torrent/overlay_lister.go:67-75 | At the top of a route every clean path shows its first segment, as itself if it is the only one |
| `OverlayLister.DeepContribution` | torrent/overlay_lister.go:76-92 | Below a directory exactly the paths below it show, each with its next segment: string slicing agrees with the tree |
| `OverlayLister.ListedNames` | torrent/overlay_lister.go:62-96 | A directory of a tidy index, asked for with or without a leading slash, lists exactly the next segments of the entries below it |
| `OverlayLister.ListedSize` | torrent/overlay_lister.go:84-90 | Each child listed there shows the sum of the entries it stands for |
| `OverlayLister.ChildSizesAddUp` | torrent/overlay_lister.go:32-45 | Conservation: the sizes listed for the children of a directory, asked for with or without a leading slash, add up to the size recorded for it |
| `OverlayLister.BuiltIndexIsTidy` | torrent/overlay_lister.go:18-59 | What is built for a route whose files can be told apart meets the conditions of the conservation law, torrents of one name included |
| `OverlayLister.TidyRouteIgnoresOrder` | torrent/overlay_lister.go:20-58 | Two indexes built in different map orders list every directory of a tidy route alike |
| `Overlay.MergeCached` | fs/overlay.go:76-80 | The merge keeps every base entry and adds the cached entries whose names are free |
| `Overlay.ShowsIff` | torrent/overlay_lister.go:35-56 | A cached file is shown as a file and a cached directory as a directory, each with its size |
| `Overlay.Overlay.ReadDir` | fs/overlay.go:64-84 | A fresh listing of the base's entries, which always win, and the cached ones; the base is not altered |
| `Overlay.Overlay.Open` | fs/overlay.go:27-62 | Succeeds exactly for stored files and cached names; the base's object first, then the first retry that succeeds, then the placeholder |
| `Overlay.Overlay.ListedOpens` | fs/overlay.go:27-84 | Every name a listing shows opens without error: for every index where cleaning the directory changes nothing but a leading slash, and for an index of clean paths everywhere |
| `Overlay.Overlay.ListsIffOpens` | fs/overlay.go:27-84 | For every index, where cleaning the directory changes nothing but a leading slash, a name is listed exactly when it opens |
| `Overlay.CleanKeyOfChild` | fs/storage.go:229-231 | Cleaning a path with one more proper segment cleans the path and keeps the segment |
| `Overlay.CachedOpens` | fs/overlay.go:40-47 | Then a name the lister shows for a directory is found again after Open splits and cleans the path |
| `Overlay.OpenLooksIn` | fs/overlay.go:40-41 | Open splits what a listing shows into the directory and the name again |
| `Overlay.KeysAreStable` | fs/overlay.go:40-41 | Cleaning changes nothing but a leading slash of the root and of every key |
| `Overlay.SuffixIsStable` | fs/storage.go:217-222 | Nor of what a mount is asked to list, the rest of a key behind it, if the match stops at a segment boundary |
| `Overlay.FoundAgainIff` | fs/overlay.go:40-47 | For every directory: whatever was cached, each name its listing shows is found again by Open exactly when cleaning the directory changes nothing but a leading slash |
| `Overlay.Overlay.UncleanNameListsUnopenable` | fs/overlay.go:27-84 | With a torrent named a//b cached, its files unknown, ReadDir of "a/" names b and Open of it fails, unless the base has it |
| `DiskTee.DiskTeeReader.ReadAt` | iio/disk.go:32-48 | The temporary file stays a prefix of the source, the bytes returned are the source's at that offset, the rest of the buffer is untouched, and the counters move as the step function says |
| `DiskTee.DiskTeeReader.Read` | iio/disk.go:50-57 | The next bytes of the source, entering the file; only `to` advances |
| `DiskTee.ReadAtFullIff` | iio/disk.go:32-48 | A read inside the source is full exactly when its bytes are in the file already or no more bytes were returned than teed |
| `DiskTee.ReadAtFailsIff` | iio/disk.go:37-43 | A read fails exactly before the start, or when the source fails before what is pulled is complete and before its end or right after its last byte; a failure is never taken for the end |
| `DiskTee.RereadStarves` | iio/disk.go:46 | Re-reading inflates `fo`: a third read then finds nothing although the source has the byte |
| `DiskTee.ReturnedCounted` | iio/disk.go:32-48 | Over every run what was returned lies in the file, and `fo` equals the number of distinct bytes returned exactly when no byte was returned twice |
| `DiskTee.DisjointRunKeepsUp` | iio/disk.go:32-48 | Over every run of pairwise disjoint reads `fo <= to`, with failures and plain reads in between |
| `DiskTee.DisjointRunReadsFully` | iio/disk.go:32-48 | At the end of such a run every read is short only at the end of the source |
| `DiskTee.SeekerWrapper.Seek` | iio/wrapper.go:21-35 | The cursor moves from the start, from where it is, or from the end |
| `DiskTee.SeekerWrapper.Read` | iio/wrapper.go:37-45 | Reads at the cursor and moves it past what was read |
| `DiskTee.SequentialFrom` | iio/wrapper.go:37-45 | From any point where no more was returned than teed, sequential reads return the source from there on, failing ones in between or not; without failures they return all that was asked for up to the end of the source, and `pos == fo == to` is kept |
| `DiskTee.SequentialReadsAreTheSource` | iio/wrapper.go:37-45 | Composition: sequential reads through the cursor, with any buffer sizes and wherever the source fails on the way, concatenate to the source up to the cursor; without failures the cursor reaches what was asked for, with `pos == fo == to` |
| `TorrentReader.ReadAtLeast` | fs/torrent.go:154-180 | However the answers are cut, all bytes they bring are in the buffer, as far as it has room, those that come with an error included, and they are the source's; no answer is asked for after enough was read or after an error; no error exactly when enough was read, else the last answer's, where end of file after some bytes becomes unexpected |
| `TorrentReader.ReadAt` | fs/torrent.go:143-152 | Success means the whole buffer holds the source at the offset |
| `TorrentReader.PrefetchInside` | fs/torrent.go:306-315 | A prefetch stays inside the file and is cut short only by its end |
| `ReaderPool.LoadedReaders` | fs/torrent.go:203-219 | Load makes as many different readers as asked for, 4 if none, all in the channel |
| `ReaderPool.StepKeepsInv` | fs/torrent.go:271-322 | Every step of every goroutine keeps channel and holders together exactly the initial readers |
| `ReaderPool.PoolIsConserved` | fs/torrent.go:203-322 | So does every interleaving from load on |
| `ReaderPool.NoReaderTwice` | fs/torrent.go:275-318 | No reader is held twice, or held and in the channel |
| `ReaderPool.NoReaderLost` | fs/torrent.go:275-318 | Every initial reader is in the channel or held |
| `ReaderPool.ReturnNeverBlocks` | fs/torrent.go:277-305 | While a reader is held the channel has room for it |
| `ReaderPool.NeverStuck` | fs/torrent.go:271-322 | While a call is unfinished or a prefetch is out, some step is enabled that is not a new call |
| `ReaderPool.StepLowersRank` | fs/torrent.go:271-322 | Every such step lowers a rank |
| `ReaderPool.RunsEnd` | fs/torrent.go:271-322 | So without new calls every interleaving ends |
| `ReaderPool.QuietMeansWhole` | fs/torrent.go:271-322 | When nothing but new calls can move, every call is done and the channel holds all readers again |
| `TorrentFs.Torrents.Load` | fs/torrent.go:77-113 | Registers exactly the torrents whose files are known and that were not registered; nothing stored changes, exactly the keys at and above their files become stored, archives apart, and what is new is one of their files, with its length, or a directory above one; a good tree stays good, listings and directory sizes included, if no file is in the way of another |
| `TorrentFs.Torrents.AddTorrent` | fs/torrent.go:58-63 | Records the torrent without loading it |
| `TorrentFs.Torrents.RemoveTorrent` | fs/torrent.go:65-75 | The whole tree is emptied, but only the removed torrent is forgotten |
| `TorrentFs.Torrents.Open` | fs/torrent.go:115-118 | Loads, then gives exactly the stored object |
| `TorrentFs.Torrents.ReadDir` | fs/torrent.go:120-123 | Loads, then lists what the storage lists, in a map of its own |
| `TorrentFs.SlotFits` | fs/torrent.go:77-113 | A waiting file that no stored or waiting file is in the way of, with no archive's extension on its path, is accepted and leaves a good tree, whatever waiting files were added before it |
| `TorrentFs.LoadShows` | fs/torrent.go:77-113 | A waiting file whose key is free, that is no archive and shares no path with another, is in the tree after loading, with its length, in every order |
| `TorrentFs.LoneFileShown` | fs/torrent.go:90-106 | After a load a torrent's lone file is shown at the path of its names below a directory named after the torrent |
| `TorrentFs.LoneNameKey` | fs/torrent.go:102-103 | A lone file n of a torrent m is at /m/n |
| `TorrentFs.FileOfManyShown` | fs/torrent.go:90-106 | Each file of a torrent with several is shown at the path of its own names |
| `TorrentFs.LoadedTwice` | fs/torrent.go:77-113 | Two loads amount to one of both, and what was shown stays shown |
| `TorrentFs.LoadingCompletes` | fs/torrent.go:77-113 | While no two known files share a path, a load keeps every registered file shown and leaves every file of every torrent shown, and nothing else stored |
| `TorrentFs.LoadedOnce` | fs/torrent.go:80-83 | A second load changes nothing: files, listings and directory sizes stay |
| `TorrentFs.StoredAfterRemovalIff` | fs/torrent.go:65-83 | After RemoveTorrent and the next load a key is stored exactly if it is the root or at or above a file of a torrent that was not registered |
| `TorrentFs.RemovalLosesOthers` | fs/torrent.go:65-83 | What is shown then is a file of a torrent that was not registered: every other one is lost |
| `TorrentFs.RemovalKeepsWholeIff` | fs/torrent.go:65-113 | Another torrent is whole then exactly when each of its files, archives apart, is also a file of a torrent that was not registered |
| `EventCounter.ComplementSubtracts` | torrent/watchers/manager.go:111 | Adding the complement of `ec - 1` subtracts `ec`, without underflow when `ec` is counted |
| `EventCounter.CounterOverRuns` | torrent/watchers/manager.go:77-113 | In every interleaving the counter is the events seen minus those acknowledged, and an event is acknowledged only by a finished sync that began after it was counted |
| `EventCounter.CounterExactIff` | torrent/watchers/manager.go:91 | The counter is exact precisely while fewer than 2^64 events are outstanding |
| `EventCounter.FinishLeavesLaterEvents` | torrent/watchers/manager.go:107-111 | A sync, failed or not, subtracts exactly what it read: the events counted since its start remain |
| `EventCounter.UncoveredKeepsPositive` | torrent/watchers/manager.go:101-111 | While no sync fails the counter is positive exactly when some event is not covered by a successful sync, so the loop does not skip it |
| `EventCounter.WrapSkips` | torrent/watchers/manager.go:104-106 | At 2^64 outstanding events the counter reads zero and they are skipped |
| `EventCounter.RunKeepsExact` | torrent/watchers/manager.go:77-113 | In every interleaving that keeps fewer than 2^64 events outstanding the counter is exact, each sync covers more than the last, and the last finished sync succeeded exactly when all it covers is synced |
| `EventCounter.EventsLostIff` | torrent/watchers/manager.go:104-111 | Then the counter reads zero over events no successful sync covers exactly when the last sync to finish failed and nothing was counted since it began |
| `EventCounter.FailedSyncLosesEvents` | torrent/watchers/manager.go:108-111 | One event and one failed sync: nothing is synced, the counter reads zero, and the loop sleeps on |
| `EventCounter.SuccessfulSyncCovers` | torrent/watchers/manager.go:101-113 | Whatever is interleaved, once a sync that had not read the counter succeeds, every event counted before is covered by a successful sync, lost ones included |
| `WorkerPool.StepKeepsInv` | torrent/service.go:321-346 | Every step keeps tokens, launches, results and the first error in agreement |
| `WorkerPool.LimitHolds` | torrent/service.go:321-337 | In every schedule at most `concurrency` jobs run at once and none runs twice |
| `WorkerPool.FinishedResult` | torrent/service.go:338-345 | When all results are received each job ran exactly once, and the result is nil exactly when every job succeeded |
| `WorkerPool.NeverStuck` | torrent/service.go:321-346 | No reachable state is stuck before all results are received |
| `WorkerPool.RunsEnd` | torrent/service.go:321-346 | A measure bounds every schedule |
| `FolderSync.Service.SyncRouteFolder` | torrent/service.go:718-773 | For every map order: acts on exactly the paths where tracking and disk disagree, loads what is missing, drops what is stale, keeps failures as they were, and does nothing if the walk fails |
| `FolderSync.Service.AddTorrentPath` | torrent/service.go:424-448 | Tracks the path only if everything succeeds; a torrent the route refuses stays in the client |
| `FolderSync.Service.RemoveFromHashLocal` | torrent/service.go:641-679 | Drops the torrent from the client if the route has a filesystem |
| `FolderSync.Service.MaybeRemoveByPath` | torrent/service.go:775-793 | Drops the torrent of one tracked path and stops tracking it |
| `FolderSync.OnlyFailuresRemain` | torrent/service.go:741-770 | What is still different after a sync is exactly what failed |
| `FolderSync.SyncConvergesIff` | torrent/service.go:718-773 | When every step succeeds the folder's tracked paths are the files on disk exactly if the walk names them under the folder's own spelling |
| `FolderSync.SyncLeavesTheRest` | torrent/service.go:733-770 | All other tracked paths keep their hashes |
| `FolderSync.EachLoadShrinks` | torrent/service.go:741-749 | Each success in loading takes one path out of the difference and adds none |
| `FolderSync.EachDropShrinks` | torrent/service.go:753-770 | Each success in dropping does too |
| `FolderSync.SecondSyncDoesNothing` | torrent/service.go:718-773 | A second sync on the same disk tries nothing and changes nothing |
| `FolderSync.SyncKeepsServedIff` | torrent/service.go:741-770 | Every tracked torrent stays in the client exactly when no file the sync drops holds a torrent that a kept or newly loaded file holds too, told over the tracked paths, the disk and what loads |
| `FolderSync.RenameDropsTheTorrent` | torrent/service.go:741-770 | Renaming a .torrent file drops its torrent for good |
| `FolderSync.OtherFoldersKeptIff` | torrent/service.go:733-737 | Files of other folders stay tracked exactly when none of them has the folder as a string prefix |
| `FolderSync.WalkStaysInside` | torrent/service.go:721-732 | Walking a clean folder names every file inside it, under its own spelling; walking "." does not |
| `Pages.LessEqTotal` | torrent/stats.go:46-50 | The order of names is total and antisymmetric |
| `Pages.LessEqIff` | torrent/stats.go:50 | It is decided by the first characters that differ; a prefix comes first |
| `Pages.SortByName` | torrent/stats.go:243 | Some sorted order of the same rows, with nothing said about equal names |
| `Pages.SortedListUnique` | torrent/stats.go:235-243 | With distinct names there is one sorted order, whatever order the map was read in |
| `Pages.OnlyOrderIffDistinctNames` | torrent/stats.go:235-243 | There is only one exactly when names are distinct |
| `Pages.BoundsValidIff` | torrent/stats.go:245-264 | The slice bounds are valid exactly when start and end do not overflow to negative values |
| `Pages.BoundsOfPage` | torrent/stats.go:245-264 | While page times size fits in an int, a page is the slice its number says |
| `Pages.PageIsCut` | torrent/stats.go:226-266 | A call for page n answers the nth slice of the one sorted list |
| `Pages.PageDefaults` | torrent/stats.go:227-232 | A page below 1 is page 1 and a size that is not positive is 25, in what the page holds and in what it says |
| `Pages.PagesPartition` | torrent/stats.go:226-266 | Pages 1 to n from separate calls concatenate to the sorted list up to n times size, and to all of it once that reaches the total: no gap, no repeat |
| `Pages.SameNameRepeats` | torrent/stats.go:226-266 | With two torrents of one name two calls may show the same torrent on two pages |
| `RouteStats.Stats.Add` | torrent/stats.go:120-135 | Records the torrent under its hash and its route, making the route if need be |
| `RouteStats.Stats.Del` | torrent/stats.go:137-150 | Forgets the hash and takes it out of that one route, which stays |
| `RouteStats.Stats.AddRoute` | torrent/stats.go:113-118 | Makes the route if there is none, and keeps the torrents of one there is |
| `RouteStats.Stats.RemoveRoute` | torrent/stats.go:164-169 | Only that route goes; the torrents stay known |
| `RouteStats.Stats.RouteStatsPage` | torrent/stats.go:226-266 | For every map order a page of some sorted order of exactly the route's running torrents |
| `RouteStats.Stats.MergedRoutePage` | torrent/service.go:1231-1296 | For every order of both maps a page of some sorted order of exactly the merged rows |
| `RouteStats.MergedOnce` | torrent/service.go:1241-1276 | The merged rows hold each hash of the route once, live exactly when the torrent runs |
| `RouteStats.LoadingKeepsTheHashes` | torrent/service.go:1255-1276 | A cached torrent that starts running replaces its cached row one for one |
| `RouteStats.DelKeepsKnownIff` | torrent/stats.go:137-150 | Del leaves a torrent listed but unknown exactly when another route lists it too |
| `KeyStore.ProperEntry` | torrent/loader/db.go:53-54 | A key of proper parts is the plain concatenation, and route and hash are read back from it |
| `KeyStore.HexHashIsSegment` | torrent/loader/db.go:68-71 | A hash that parses is a proper path segment |
| `KeyStore.DecodesIffSegment` | torrent/loader/db.go:219-228 | A route is read back from its key exactly when it is one proper path segment |
| `KeyStore.KeyLandsIff` | torrent/loader/db.go:53-54 | For every route: the key of an entry lies in a namespace exactly when its route, resolved, stays below the hash, or climbs out of the hash and goes on, or climbs out of its own namespace and into that one |
| `KeyStore.RouteEscapes` | torrent/loader/db.go:53-54 | The routes ../../meta/x, whatever the hash, make a magnet's key the metadata key of x |
| `KeyStore.KeyRoundTrip` | torrent/loader/db.go:14-16 | Encoding and decoding undo each other for proper records, each key is spelled as /route/, /file/ or /meta/ and its parts, and has its own namespace's prefix and no other |
| `KeyStore.SetRefines` | torrent/loader/db.go:44-62 | Writing a key writes its record and no other |
| `KeyStore.DeleteRefines` | torrent/loader/db.go:64-83 | Deleting a key deletes its record and no other |
| `KeyStore.GetRefines` | torrent/loader/db.go:144-160 | Looking up a key finds its record |
| `KeyStore.RunsRefine` | torrent/loader/db.go:44-211 | After any writes and deletes the store holds exactly the records a map of records would |
| `KeyStore.DB.AddMagnet` | torrent/loader/db.go:44-62 | A magnet that parses is stored under its hash and route; otherwise nothing changes |
| `KeyStore.DB.RemoveFromHash` | torrent/loader/db.go:64-83 | Anything but 40 hex digits, of either case, is an error; otherwise the call says deleted, whether or not the key was there |
| `KeyStore.DB.SetMeta` | torrent/loader/db.go:133-142 | Stores the metadata of one hash and touches nothing else |
| `KeyStore.DB.DeleteMeta` | torrent/loader/db.go:187-191 | Deletes the metadata of one hash and touches nothing else |
| `KeyStore.DB.AddTorrentFile` | torrent/loader/db.go:193-203 | Stores one file record and touches nothing else |
| `KeyStore.DB.RemoveTorrentFile` | torrent/loader/db.go:205-210 | Deletes one file record and touches nothing else |
| `KeyStore.DB.GetMeta` | torrent/loader/db.go:144-160 | Gives what is stored for the hash |
| `KeyStore.DB.ListMagnets` | torrent/loader/db.go:85-106 | For every iteration order, for any store the values grouped by the last segment of their keys; for a store of proper records exactly the magnets of each route, one for each of its hashes |
| `KeyStore.DB.ListTorrentPaths` | torrent/loader/db.go:108-131 | For every iteration order, for any store the values grouped by the last segment of their keys; for a store of proper records exactly the file paths of each route, one for each of its hashes |
| `KeyStore.DB.ListMagnetHashesByRoute` | torrent/loader/db.go:212-229 | Exactly the hashes of the magnets of each route that has any, each once |
| `KeyStore.DB.ListFileHashesByRoute` | torrent/loader/db.go:231-248 | Exactly the hashes of the files of each route that has any, each once |
| `KeyStore.DB.ListHashes` | torrent/loader/db.go:213-248 | The loop of both hash listings gives exactly the hashes of each route that has entries, each once |
| `KeyStore.DB.GetAllMeta` | torrent/loader/db.go:163-185 | For any store a value of each last segment; for a store of proper records exactly the metadata |
| `HandleTable.FileHandler.OpenHolder` | fuse/mount.go:195-213 | The file takes the first free place, or a new one at the end, and its index is the handle |
| `HandleTable.FileHandler.Get` | fuse/mount.go:215-226 | The file of an open handle; too big, empty and negative indices told apart |
| `HandleTable.FileHandler.GetFile` | fuse/mount.go:169-177 | Without a handle the path is looked up |
| `HandleTable.FileHandler.Remove` | fuse/mount.go:228-249 | Frees the place exactly when the handle is open and closing succeeds; a handle outside the table panics |
| `HandleTable.HandleYieldsItsFile` | fuse/mount.go:195-249 | Over every run a handle yields the file it was opened with until a Remove of it succeeds |
| `HandleTable.HandleYieldsIff` | fuse/mount.go:195-249 | A handle yields a file exactly while it is the handle of an open of that file that no Remove has freed |
| `HandleTable.LiveHandlesDistinct` | fuse/mount.go:195-249 | Files open at the same time have different handles |
| `HandleTable.LengthIsPeak` | fuse/mount.go:203-210 | Over every run the table's length is the historical peak of simultaneously open handles |
| `HandleTable.LiveCountsOpen` | fuse/mount.go:195-249 | The handles counted open are as many as the files opened and not removed since |
| `HandleTable.PeakIsPeak` | fuse/mount.go:203-210 | That peak is the largest number open after any prefix of the run, and it is reached |

## Left out

- Storage.Storage.Add: coherence and exact sizes are stated in its contract for a storage without factories and mounts; PlainAdd, ArchiveCoherentIff and RunsStayBalanced carry them over to factories, and RunsAgree gives the agreement of files, listings, filesystems and mounts once something is mounted, but not the sizes.
- MountRuns.RunsAgree: does not say that the directory a key is named in is itself stored or mounted: a mounted filesystem may answer for it, and RemoveFS may take that away.
- Storage.Storage.Add: a factory never fails, as none of the supported ones does, and "" is not one of its extensions, with which adding the root would never end.
- Storage.Storage.Add: the added File is not itself one of the stored Dir objects, and its size is taken when it is added; fs/memory.go, whose files report the bytes still unread as their size, is not part of this model.
- Storage.Storage.GetFileFromFs: a mounted filesystem answers as a function of the path, with a file or an error, never with neither.
- Overlay.Overlay.ReadDir: nothing is mounted in the base, as in every route's storage; the base's answers to the retries in Open are inputs, and panics recovered in Open are not modelled.
- Overlay.Overlay.ListedOpens: asks for a coherent base, so for one in which no archive was opened; an opened archive is listed and does not open.
- OverlayLister.ChildSizesAddUp: states the law for directories below the root; at the root a torrent without files shows the size its summary gives, which no file adds up to.
- DiskTee.DiskTeeReader.ReadAt: offsets and counters are unbounded integers, and a failing temporary file is not modelled.
- TorrentReader.ReadAtLeast: the answers of the torrent client and of the timer are inputs; a call whose answers run out is reported as still waiting.
- ReaderPool.PoolIsConserved: holds until Close, which drops the channel while readers may still be returned to it.
- ReaderPool.NeverStuck: deadlock freedom and a bound on runs, not fairness towards one waiting call.
- TorrentFs.SlotFits: says when a load surely leaves a good tree; with a waiting file above another the outcome depends on the order they are added in.
- ArchiveSizes.RunsStayBalanced: leaves out an Add refused at a new key, after which the sizes do not count the file that stays stored.
- TorrentFs.RemovalKeepsWholeIff: is told for waiting files that share no path with each other; with shared paths the outcome depends on the map order, and StoredAfterRemovalIff says which keys are taken.
- TorrentFs.Torrents.Load: a torrent whose files become known is one added again with them; the concurrent loads that a read lock lets in are one step each.
- EventCounter.EventsLostIff: holds while fewer than 2^64 events are outstanding; CounterExactIff says that this is exactly when the counter is right.
- FolderSync.Service.SyncRouteFolder: the walk, the client and the database are inputs that may fail, and changes to the folder during a sync are not modelled; the database's record of the file is that of KeyStore.
- FolderSync.Service.RemoveFromHashLocal: a missing filesystem and a hash that does not parse are one outcome, and the emptied tree of the route is that of TorrentFs, where the removal clears it.
- Pages.PagesPartition: is about one unchanged route, as pages from separate calls cannot partition a route that changes in between.
- RouteStats.Stats.RouteStatsPage: a row is a name, a hash and whether it is live; rates, peers and pieces are not modelled.
- KeyStore.DB.ListMagnets: badger yields keys in byte order; the model leaves the order open, so nothing is said about the order within a route.
- KeyStore.DB.AddMagnet: parsing a magnet link is an input, and a transaction either commits or leaves the store alone; JSON values are strings.
- HandleTable.FileHandler.OpenHolder: the lookup of the path is an input, and the table is shorter than 2^63 - 1.
- Data races on unsynchronised fields, for example the plain read of the event counter: memory is sequentially consistent.
- The torrent client, DHT, archive decoders and the FUSE binding: libraries whose code is not part of the repository.
- HTTP, WebDAV, templates, configuration, Arr and qBittorrent clients, health checks, rate limits, logging and clocks: input and output with little state of their own.
- The materializer's choice of what to load: best effort over the network; its outcome is the retries of Overlay.Overlay.Open.
- Unicode and Windows path rules beyond turning backslashes into slashes: paths are sequences of characters.
