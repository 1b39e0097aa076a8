# Models and proofs for the pokedex server, the memory process and the map scheduler

The repository holds three programs that keep shared state by hand: the OSADA file system server, a paged
memory with a write-back cache, and the scheduler of a game map with the trainers that play on it. This
project models their state-changing cores in Dafny and proves what those cores keep, over single calls and
over whole runs. `dafny verify dfyconfig.toml` checks all of it.

## The file system

A node table of 2048 slots, a mapping table of block links, a bitmap and an area of 64-byte blocks.

| file | what it holds |
|---|---|
| `Words.dfy`, `Counting.dfy`, `Osada.dfy` | machine words, how many different numbers there are below a bound, on-disk constants, the node record, response codes |
| `Volume.dfy` | the four areas as a value, the chain each node spells, the invariant: chains linked and disjoint, bitmap exact, lengths right |
| `Allocation.dfy`, `Growth.dfy`, `Release.dfy` | first-fit scans, growth of a file, roll-back, release of a chain's tail |
| `Contents.dfy`, `Effects.dfy` | the byte sequence a chain spells; what write, truncate and unlink do to it |
| `Store.dfy` | the operations over the mapped arrays, through a cursor that stands on a node or on a mapping cell |
| `Interleaving.dfy`, `InterleavingSafety.dfy`, `InterleavingRuns.dfy` | requests that arrive for different files while others are under way, one step for each section under `m_lock` and each piece copied |
| `InterleavingAlone.dfy` | the sections of a request that nothing interrupts are the sequential operation |
| `Names.dfy`, `Tree.dfy` | 17-byte names, `strtok`, the directory operations as functions of the node table |
| `TreeSafety.dfy`, `TreeLookup.dfy`, `MkdirClaims.dfy` | no cycles; unique names and resolvable paths; what `mkdir`'s answer is worth |
| `Paths.dfy`, `TreeMeaning.dfy` | which node a path names, said without searching; what each reply to a directory request means for nodes and paths |
| `FileTable.dfy` | the same directory operations as scans and walks over the mapped slots |
| `FileSystem.dfy`, `FileSystemRuns.dfy`, `Server.dfy` | both halves together: whole requests, whole runs, the server object |
| `Layout.dfy` | where the areas of an image lie |

A write's growth is two scans, each under the mutex. `Growth` shows that together they are one growth by
the missing blocks, that it takes the lowest free ones, and that a growth that fails is undone exactly.
`FileSystems` then shows that a request, whatever blocks it moved, does to a map from nodes to byte
sequences what its name says, and to the node whose path it names; `FileSystemRuns` carries that over every
run from a formatted volume, and says what each request does to every path.

## The paged memory

`Frames.dfy` has the inverted table as 12-byte records inside the memory it describes, the free list and
the page counts. `Caches.dfy` has the cache entries, the per-process counters and the choice of a victim.
`PagedMemory.dfy` puts them together as one state with its requests, `MemoryRuns.dfy` proves what each
request keeps and what holds of whole runs, `MissedWrites.dfy` says when a write to a page that is not cached
comes out right, `Recency.dfy` that the page a miss takes from the cache is the one asked for longest ago,
and which misses a process is charged for, `OrphanedPages.dfy` what a process reads whose number was in use before, and `MemoryServer.dfy` is the server over one byte array.

## The map scheduler and the trainer

`Scheduler.dfy` has the requests of the running trainer, the release of a leaving trainer's pokemons and
the two kinds of burst; `SchedulerSafety.dfy`, `SchedulerBursts.dfy` and `SchedulerRuns.dfy` prove what they keep,
`Turns.dfy` says where a trainer is after its turn, read off its requests and the nests, and
`BlockedQueue.dfy` that who is blocked longest is woken first; `MapServer.dfy` is the map object. `Walk.dfy` is
the trainer's walk to a nest, client and map together.

## Where the code falls short of what one expects

Each of these is modelled as the code has it, with the exact condition under which it matters;
`Witnesses.dfy` gives an input for each.

- A read starting at the last byte of a file gives nothing back, a read of an empty file follows END_OF_FILE,
  and a range that starts in the file and ends at 2^32 or beyond is not clipped and comes back with a negative
  count; every other read answers with the bytes its range shares with the file (`Effects.ReadAnswersRangeIff`).
- An extension scan that takes the last data block of the device reports that there is no space
  (`Allocation.ScanRunsOut`, and the conditions `HasRoom` and `TruncateRoom` in the effects).
- `mkdir` looks at the wrong variable for a full table, and claims one directory too many; and it claims a
  directory that nobody can find, because a file of that name comes first (`MkdirClaims.MkdirClaimsFalsely` has
  both).
- `mkdir` and `mknod` create nodes over names that are taken (`TreeLookup.MkdirGood`, `TreeLookup.MknodGood`).
- `rmdir` does not look for children (`TreeLookup.RmdirGood`).
- A missed write copies its own bytes over what another page left in the entry; whatever that was, the page
  comes out right only if the write covers all of it (`MissedWrites.MissedWriteIff`,
  `MissedWrites.WholePageIff`).
- Ending a process leaves its pages in the cache (`MemoryRuns.FinalizeKeepsCacheIff`), and the next process of
  that number reads them (`OrphanedPages.RegrantedIff`).
- The counter of cache entries has 16 bits with a sign, the limit 32 without; the charge after 32767 makes the
  counter negative (`Caches.VictimKeepsQuotasIff`, `MemoryRuns.StepKeepsQuotasIff`), and then it counts as used
  up for good (`Caches.WrappedIsUsedUp`).
- Frame count times frame size is a 32-bit product; from 2^32 bytes on, page write-backs collide
  (`Frames.IsolatedIff`).
- A nest counts its pokemons in a char (`SchedulerSafety.CountIsLength`).

## Model

| member | source | states |
|---|---|---|
| Volumes.AppendKeeps | pokedex-server/pokedex-server.c:1057-1067 | linking a free block to the end of a file's chain keeps chains linked, disjoint and exactly marked |
| Volumes.CutKeeps | pokedex-server/pokedex-server.c:1085-1093 | releasing the tail of a chain does too |
| Volumes.FreeIsUnused | pokedex-server/pokedex-server.c:1058-1060 | a block whose bit is clear is in no chain |
| Volumes.CursorReads | pokedex-server/pokedex-server.c:1081-1092 | reading through the cursor at position i of a chain gives its block i, or END_OF_FILE at the end |
| Allocation.FirstFitFree | pokedex-server/pokedex-server.c:1054-1068 | a scan takes free blocks, each once, in ascending order |
| Allocation.FirstFitTakesLowest | pokedex-server/pokedex-server.c:1054-1068 | no free block below one it took is left |
| Allocation.FirstFitCount | pokedex-server/pokedex-server.c:1054-1068 | it takes as many as it wants or all there are |
| Allocation.ScanRunsOut | pokedex-server/pokedex-server.c:1054-1070 | it reports no space exactly when the blocks short of the last one are too few |
| Allocation.FirstFitInTwoScans | pokedex-server/pokedex-server.c:1009-1068 | two scans one after the other take what one scan would |
| Allocation.AppendAllKeeps | pokedex-server/pokedex-server.c:1054-1068 | linking all blocks of a scan keeps the invariant |
| Allocation.GrowThenCut | pokedex-server/pokedex-server.c:1054-1093 | growing a chain and cutting it back restores nodes, bitmap, data and every link of a chain |
| Growth.RoomForEmpty | pokedex-server/pokedex-server.c:1009-1070 | when the two scans of a write to an empty file both succeed, in terms of free blocks |
| Growth.TwoScansAreOne | pokedex-server/pokedex-server.c:1009-1068 | the first block and the extension together are the extension by all missing blocks |
| Growth.GrownKeeps | pokedex-server/pokedex-server.c:1001-1069 | a growth that finds its blocks leaves a well-formed volume |
| Growth.GrownUndone | pokedex-server/pokedex-server.c:1070-1093 | a growth that does not is undone: size, chain, bitmap, data as before |
| Growth.UndoneKeeps | pokedex-server/pokedex-server.c:1070-1093 | the volume after a roll-back is well formed with the old chains |
| Growth.StartedThenExtended | pokedex-server/pokedex-server.c:1001-1068 | the extension section finishes the growth the first section began |
| Growth.MissingBytes | pokedex-server/pokedex-server.c:1042-1051 | the bytes the extension still has to cover amount to the missing blocks |
| Release.CutToIsCut | pokedex-server/pokedex-server.c:1085-1093 | the release loop, block by block, computes the cut chain |
| Contents.PosInjective | pokedex-server/pokedex-server.c:1112-1140 | different bytes of files lie at different places of the data area |
| Contents.PatchOverwrites | pokedex-server/pokedex-server.c:1112-1140 | copying into a chain changes the file's bytes in the range and keeps the others |
| Contents.PatchSpares | pokedex-server/pokedex-server.c:1112-1140 | and changes no byte of another file |
| Effects.ReadAnswersRangeIff | pokedex-server/pokedex-server.c:1235-1278 | a read answers with the bytes its range shares with the file if and only if the file is not empty (or the offset is the one the unsigned guard stops), the range does not start at the last byte, and it does not start before that and end at 2^32 or beyond |
| Effects.SizesFitInt | pokedex-server/pokedex-server.c:1235 | file sizes fit the int they are read into |
| Effects.WriteKeeps | pokedex-server/pokedex-server.c:994-1140 | a write leaves a well-formed volume, with or without room |
| Effects.WriteMeans | pokedex-server/pokedex-server.c:994-1140 | on success the buffer lies over the old bytes, at the right size; without room nothing changed; other files are the same |
| Effects.WriteFindsRoomIff | pokedex-server/pokedex-server.c:994-1093 | a write succeeds if and only if it lacks no more blocks than are free before the last one of the device, the last one helping only an empty file that needs one block |
| Effects.TruncateKeeps | pokedex-server/pokedex-server.c:1398-1496 | a truncate leaves a well-formed volume |
| Effects.TruncateMeans | pokedex-server/pokedex-server.c:1398-1496 | on success the bytes that fit are kept at exactly the new size; without room nothing changed; other files are the same |
| Effects.TruncateFindsRoomIff | pokedex-server/pokedex-server.c:1435-1482 | a truncate succeeds if and only if it lacks no more blocks than are free before the last one of the device |
| Effects.UnlinkKeeps | pokedex-server/pokedex-server.c:1601-1616 | an unlink leaves a well-formed volume |
| Effects.UnlinkMeans | pokedex-server/pokedex-server.c:1601-1616 | the file is gone, its blocks and no others are free, other files are the same |
| Stores.Store.constructor | pokedex-server/pokedex-server.c:138-155 | a mapped well-formed image is a valid store |
| Stores.Store.Take | pokedex-server/pokedex-server.c:1060-1064 | one hit of the scan appends the block to the chain the cursor ends |
| Stores.Store.AssignFirstBlock | pokedex-server/pokedex-server.c:1009-1022 | an empty file gets the lowest free block if there is one |
| Stores.Store.Extend | pokedex-server/pokedex-server.c:1053-1069 | the scan extends the chain by the wanted blocks and stops where the specification says |
| Stores.Store.ReleaseFrom | pokedex-server/pokedex-server.c:1085-1093 | the release loop leaves the cut volume |
| Stores.Store.Walk | pokedex-server/pokedex-server.c:1081-1084 | n pointer steps from the node reach position n of the chain |
| Stores.Store.WalkToEnd | pokedex-server/pokedex-server.c:1042-1047 | following links to END_OF_FILE counts the chain and ends at its last cell |
| Stores.Store.Grow | pokedex-server/pokedex-server.c:994-1110 | the growth of a write: done with the lowest free blocks, or undone, and which of the two |
| Stores.Store.CopyIn | pokedex-server/pokedex-server.c:1112-1140 | the copy loop writes the whole buffer at the offset and never stops short at END_OF_FILE |
| Stores.Store.Write | pokedex-server/pokedex-server.c:980-1156 | a write is its effect on the volume, and keeps the store valid |
| Stores.Store.Truncate | pokedex-server/pokedex-server.c:1393-1497 | so is a truncate |
| Stores.Store.Unlink | pokedex-server/pokedex-server.c:1598-1616 | so is an unlink |
| Stores.Store.Fetch | pokedex-server/pokedex-server.c:1243-1275 | the read loop collects exactly the bytes of the range, across block boundaries |
| Stores.Store.Read | pokedex-server/pokedex-server.c:1234-1278 | a read gives the slice its guard lets through of the file's bytes, or the outcome of an empty file or of a range that wraps around |
| Stores.NecessaryBlocks | pokedex-server/pokedex-server.c:1075-1077 | the block count of the code is the size in blocks, rounded up |
| InterleavingSafety.StepIsSafe | pokedex-server/pokedex-server.c:1009-1022 | every section of every request follows only valid pointers and keeps the invariant, whatever the others are doing |
| InterleavingSafety.ArrivalIsSafe | pokedex-server/pokedex-server.c:980-996 | a request may begin on any file without one under way, at any moment |
| InterleavingRuns.RunsAreSafe | pokedex-server/pokedex-server.c:1053-1069 | at every moment of every interleaving, requests arriving all the while, no block is in two chains, the bitmap is exact, and a file whose latest request has finished holds what that request alone makes of what it found |
| InterleavingRuns.RunsEndWellFormed | pokedex-server/pokedex-server.c:1086-1093 | whenever no request is under way the volume is well formed |
| InterleavingRuns.StepsDecrease | pokedex-server/pokedex-server.c:1112-1140 | every step brings its request nearer to its end |
| InterleavingRuns.RequestsFinish | pokedex-server/pokedex-server.c:1420-1433 | from its arrival a request takes at most its buffer's length and four steps, however it is scheduled and whatever else arrives |
| InterleavingAlone.AloneItGrows | pokedex-server/pokedex-server.c:994-1070 | without interference the sections of a write compute the sequential growth and its outcome |
| InterleavingAlone.AloneCopies | pokedex-server/pokedex-server.c:1112-1140 | without interference the pieces of a write copy the whole buffer |
| InterleavingAlone.AloneItIsSequential | pokedex-server/pokedex-server.c:980-1156 | without interference the sections of any write, truncate or unlink end with the effect of the sequential operation |
| Names.NameSurvives | pokedex-server/pokedex-server.c:336-339 | a name of up to 17 bytes is read back from its field whatever the field held |
| Names.StoredLength | pokedex-server/pokedex-server.c:283-289 | the scan for the end of a stored name finds the name |
| Names.Join | pokedex-server/pokedex-server.c:606-624 | the listing loop writes every name followed by a comma |
| Names.Split | pokedex-client/pokedex-client.c:214-222 | the token loop gives the non-empty pieces between separators |
| Names.SplitJoined | pokedex-client/pokedex-client.c:214-222 | splitting a joined listing gives the names back, in order |
| Names.SplitSpelled | pokedex-server/pokedex-server.c:453-491 | splitting a spelled path gives its names back |
| Trees.SearchFrom | pokedex-server/pokedex-server.c:273-306 | the search finds the first slot with that name and parent that is neither skipped nor the parent itself |
| Trees.WalkStays | pokedex-server/pokedex-server.c:455-491 | a walk ends at the root or at a slot |
| TreeSafety.WalkHangs | pokedex-server/pokedex-server.c:1827-1831 | a walk from the root that skips a slot ends at a directory below the root whose way up avoids that slot |
| TreeSafety.ReparentKeeps | pokedex-server/pokedex-server.c:1867-1872 | giving a node a parent whose way up avoids it leaves every way up finite |
| TreeSafety.MkdirKeeps | pokedex-server/pokedex-server.c:455-491 | mkdir closes no cycle, even when it runs on after the table is full |
| TreeSafety.RenameKeeps | pokedex-server/pokedex-server.c:1781-1880 | rename closes no cycle |
| TreeSafety.NoRunMakesACycle | pokedex-server/pokedex-server.c:1827-1872 | no run of mkdir, mknod, rmdir, unlink and rename makes a node its own ancestor |
| TreeLookup.RemovalKeepsRootedIff | pokedex-server/pokedex-server.c:1699-1701 | removing a node keeps the others below the root if and only if it has no children |
| TreeLookup.UniqueIff | pokedex-server/pokedex-server.c:351-374 | a node placed keeps names unique if and only if no other has its name under its parent |
| TreeLookup.SearchMisses | pokedex-server/pokedex-server.c:281-305 | the search fails if and only if there is no such node |
| TreeLookup.MknodGood | pokedex-server/pokedex-server.c:781-853 | mknod keeps the tree in order if and only if it creates nothing over an existing name |
| TreeLookup.MkdirGood | pokedex-server/pokedex-server.c:444-498 | mkdir keeps it in order if and only if it creates nothing over an existing name |
| TreeLookup.MkdirFreshIff | pokedex-server/pokedex-server.c:455-491 | it does so if and only if the first name that is no directory is not taken by a file, in terms of the table before the request |
| TreeLookup.RmdirGood | pokedex-server/pokedex-server.c:1660-1704 | rmdir keeps it in order if and only if the directory it removes is childless |
| TreeLookup.UnlinkGood | pokedex-server/pokedex-server.c:1534-1616 | unlink always keeps it in order |
| TreeLookup.RenameGood | pokedex-server/pokedex-server.c:1765-1880 | so does rename |
| TreeMeaning.MknodMeans | pokedex-server/pokedex-server.c:781-869 | each reply of mknod, in terms of paths; when it makes a file, the first free slot becomes a regular empty file with that name in that directory, and nothing else changes |
| TreeMeaning.MknodPaths | pokedex-server/pokedex-server.c:351-374 | afterwards that path leads to it, and every other path leads where it led |
| TreeMeaning.RmdirMeans | pokedex-server/pokedex-server.c:1655-1717 | rmdir removes exactly the directory with that path, or answers that there is none |
| TreeMeaning.UnlinkTreeMeans | pokedex-server/pokedex-server.c:1534-1616 | unlink removes exactly the file with that path, or answers that there is none |
| TreeMeaning.RemovedPaths | pokedex-server/pokedex-server.c:1699-1701 | removing a node takes away its path and those below it, and no other |
| TreeMeaning.RenameMeans | pokedex-server/pokedex-server.c:1760-1966 | each reply of rename, in terms of paths in the tree without the node; on success the node has the new name and directory, is otherwise what it was, and nothing else changes |
| TreeMeaning.RenameNothing | pokedex-server/pokedex-server.c:1765-1800 | without a node of that path the answer is that there is none |
| TreeMeaning.RenameMoves | pokedex-server/pokedex-server.c:1866-1872 | a successful rename moves the node and everything below it to the new path, and nothing else |
| TreeMeaning.ListingIs | pokedex-server/pokedex-server.c:581-624 | a listing names the children of the directory, all and only them, once each, in slot order |
| TreeLookup.LocateIsRegular | pokedex-server/pokedex-server.c:1540-1566 | the walk of write, truncate and unlink ends at a regular file if it ends at a node |
| Paths.LocateSpells | pokedex-server/pokedex-server.c:954-972 | what write, truncate and unlink find has exactly the path asked for, in any table |
| Paths.LocateIff | pokedex-server/pokedex-server.c:954-972 | with unique names they find a file if and only if it has that path, directories if and only if it is theirs, and nothing if and only if no node has it |
| Paths.ResolveIff | pokedex-server/pokedex-server.c:1188-1221 | getattr and read find a node if and only if it has that path |
| Paths.SourceIff | pokedex-server/pokedex-server.c:1765-1800 | a rename starts from a node if and only if it has that path |
| Paths.WalkSkips | pokedex-server/pokedex-server.c:1827-1831 | walking past a node is walking in the tree without it |
| TreeLookup.PathResolves | pokedex-server/pokedex-server.c:687-714 | in a tree in order every live node is found under its own path |
| TreeLookup.LocateFollowsPath | pokedex-server/pokedex-server.c:1540-1566 | and a regular file is found there by write, truncate and unlink |
| TreeLookup.SpelledPathResolves | pokedex-server/pokedex-server.c:687-714 | also when the path travels as a string with slashes |
| TreeLookup.ListingArrives | pokedex-server/pokedex-server.c:581-624 | the client gets the listed names back, in slot order, if and only if none is empty or holds a comma |
| TreeLookup.DisciplinedRunsStayGood | pokedex-server/pokedex-server.c:444-498 | runs that remove only childless directories and create nothing over an existing name keep the tree in order |
| MkdirClaims.MkdirAnswer | pokedex-server/pokedex-server.c:455-498 | in any tree without lost nodes: which code mkdir answers, how many directories it makes, how far the path leads afterwards, and that nothing else changes, in terms of missing names, free slots and a file that comes first |
| MkdirClaims.MkdirClaimsFalsely | pokedex-server/pokedex-server.c:455-498 | it claims a directory that is not there if and only if the missing names are short enough and either one more than the free slots, or at most that many and the first one is hidden by a file in an earlier slot than the one taken |
| FileTables.FileTable.SearchNode | pokedex-server/pokedex-server.c:273-306 | the scan over the slots finds what the specification finds |
| FileTables.FileTable.SearchDirectory | pokedex-server/pokedex-server.c:259-271 | the first hit counts only if it is a directory |
| FileTables.FileTable.GetFreeFileBlock | pokedex-server/pokedex-server.c:308-324 | the first free slot other than the parent's |
| FileTables.FileTable.Create | pokedex-server/pokedex-server.c:326-374 | the node goes into that slot, or the error code comes back and nothing changes |
| FileTables.FileTable.Walk | pokedex-server/pokedex-server.c:785-846 | the directory a path leads to and how many of its names were used |
| FileTables.FileTable.WalkNodes | pokedex-server/pokedex-server.c:687-714 | the node a path leads to |
| FileTables.FileTable.FindFile | pokedex-server/pokedex-server.c:1538-1590 | the file a path leads to, or why there is none |
| FileTables.FileTable.Mkdir | pokedex-server/pokedex-server.c:444-513 | mkdir leaves the table and sends the reply of its specification, the wrong test included |
| FileTables.FileTable.Mknod | pokedex-server/pokedex-server.c:781-869 | so does mknod |
| FileTables.FileTable.Rmdir | pokedex-server/pokedex-server.c:1655-1717 | so does rmdir |
| FileTables.FileTable.Rename | pokedex-server/pokedex-server.c:1760-1966 | so does rename |
| FileTables.FileTable.Readdir | pokedex-server/pokedex-server.c:536-662 | the reply lists the names under the directory in slot order, or says that there are none |
| FileSystems.TreeKeepsFiles | pokedex-server/pokedex-server.c:351-374 | directory operations keep every regular file's size and chain; all but mknod make none |
| FileSystems.SlotServes | pokedex-server/pokedex-server.c:994-1140 | a file request does to the map from nodes to bytes what it means |
| FileSystems.StepServes | pokedex-server/pokedex-server.c:376-421 | every request keeps the volume well formed and the tree acyclic, and does what it means to the file whose path it names; mknod makes one empty file with its path, other directory requests none |
| FileSystemRuns.RunsStaySound | pokedex-server/pokedex-server.c:376-421 | in every run, at every point, chains end, are disjoint and of the right length, the bitmap leaks nothing, no node is its own ancestor |
| FileSystemRuns.RunsServe | pokedex-server/pokedex-server.c:376-421 | in every run each request refines its effect on a map from nodes to bytes |
| FileSystemRuns.RunsFindRoom | pokedex-server/pokedex-server.c:994-1496 | in every run a write or truncate of a file answers that there is no space if and only if it lacks the blocks |
| FileSystemRuns.UntouchedStays | pokedex-server/pokedex-server.c:376-421 | a file no request targets keeps its bytes through any run |
| FileSystemRuns.LastWriteStands | pokedex-server/pokedex-server.c:994-1140 | the bytes of the last successful write to a file are there ever after |
| FileSystemRuns.RunsFindFiles | pokedex-server/pokedex-server.c:1540-1566 | in disciplined runs, at every point, a file request acts on a file if and only if its path is the one named, on nothing if no node has it, and every file is found under the path it spells |
| FileSystemRuns.RunsMovePaths | pokedex-server/pokedex-server.c:376-421 | in disciplined runs, at every step, unlink and rmdir take away the path they name, rename moves the node and what is below it, and nothing else moves any path |
| FileSystemRuns.FormattedIsSound | pokedex-server/pokedex-server.c:138-155 | a formatted volume is a sound start without files |
| Servers.Server.Write | pokedex-server/pokedex-server.c:871-1157 | the whole request, path walk included, is a step of the specification |
| Servers.Server.Truncate | pokedex-server/pokedex-server.c:1302-1511 | the same for truncate |
| Servers.Server.Unlink | pokedex-server/pokedex-server.c:1513-1631 | the same for unlink |
| Servers.Server.Read | pokedex-server/pokedex-server.c:1159-1300 | a read answers from the map of files, or that there is no such file |
| Servers.Server.Mkdir | pokedex-server/pokedex-server.c:423-513 | the whole mkdir request is a step of the specification |
| Servers.Server.Mknod | pokedex-server/pokedex-server.c:753-869 | the same for mknod |
| Servers.Server.Rmdir | pokedex-server/pokedex-server.c:1633-1717 | the same for rmdir |
| Servers.Server.Rename | pokedex-server/pokedex-server.c:1719-1966 | the same for rename |
| Layouts.Layout.constructor | pokedex-server/pokedex-server.c:170-198 | the areas tile the image, every data block has a cell and a bit, and both counts of the first data block agree |
| Layouts.RoomForData | pokedex-server/pokedex-server.c:171-173 | no unsigned step of the size computation wraps around |
| Layouts.MappingIsLeast | pokedex-server/pokedex-server.c:172 | the mapping table has no more blocks than the cells of the remaining blocks take |
| Frames.OwnerChanged | memoria.c:404-411 | storing an owner changes one entry of the table and no byte behind the table |
| Frames.IsolatedIff | memoria.c:179-190 | the table fits, and write-backs to grantable frames stay inside the memory, behind the table and apart, if and only if frame count times frame size is below 2^32 |
| Frames.TableBelow | memoria.c:189-190 | the table fits below the first free frame |
| Frames.FirstFreeIsLeast | memoria.c:189-190 | no earlier frame is clear of the table |
| Frames.StoredOnlyThere | memoria.c:567-576 | a page write-back changes its own frame, no other, and not the table |
| Frames.OwnsExactly | memoria.c:598-614 | a process owns exactly the pages it was granted, each in the one frame the search finds |
| Frames.GrantKeeps | memoria.c:387-393 | granting the next page from the head of the free list keeps frames and pages matching |
| Frames.NoMoreThanFrames | memoria.c:359-396 | the pages of a process and the free frames together are no more than all frames |
| Frames.EndKeeps | memoria.c:710-735 | ending a process gives back exactly its frames |
| Frames.LoadedIsAllocated | memoria.c:188-208 | the loaded table and free list are a valid start |
| Caches.FindEntry | memoria.c:454-465 | the first entry that holds the page |
| Caches.VictimKeepsQuotasIff | memoria.c:467-527 | handing an entry to a charged process keeps every occupancy at or below its counter, and counters at or below the limit, if and only if the process is not charged or its counter is below 32767 |
| Caches.ChargedToLimit | memoria.c:472-499 | a newcomer is charged for every miss until its quota is used up, and then no more |
| Caches.WrappedIsUsedUp | memoria.c:481-487 | a counter that has become negative counts as used up, and its process is never charged again |
| Caches.NobodyElseEvicted | memoria.c:491-544 | with room for every quota the victim is free or the process's own least recently used, and counters stay equal to occupancy |
| Caches.RoomLeft | memoria.c:501-523 | then a process within its quota always finds a free entry |
| PagedMemories.EvictedKeeps | memoria.c:552-554 | writing a victim back changes no page as its owner reads it, and nobody's frame |
| PagedMemories.FilledEntries | memoria.c:556-562 | after an entry changed hands pages are cached once, belong to someone, and clean ones agree with memory |
| PagedMemories.FilledReads | memoria.c:546-565 | the new page reads as placed, every other page, the victim included, as before |
| PagedMemories.HitReads | memoria.c:444-451 | a hit changes its own page only |
| PagedMemories.OwnedIffGranted | memoria.c:598-614 | a page is found if and only if it was granted |
| PagedMemories.AlwaysGrantable | memoria.c:387-393 | an assignment for which the frames suffice never takes a page count past 32 bits |
| MemoryRuns.AssignGrants | memoria.c:359-396 | an assignment is refused exactly when frames are too few, changing nothing; granted, it adds its pages and touches no other |
| MemoryRuns.FinalizeFrees | memoria.c:710-735 | ending a process frees its frames, all of them and no other |
| MemoryRuns.FinalizeKeepsCacheIff | memoria.c:710-735 | the cache is still in order afterwards if and only if it held no page of that process |
| MemoryRuns.FinalizeServes | memoria.c:710-735 | then frames and cache stay in order and every other process's pages read as before |
| OrphanedPages.RegrantedIff | memoria.c:454-465 | a page granted under a number that was in use before reads as its frame if and only if no entry of that page is left or it has the same bytes; what is left is what the old process saw |
| OrphanedPages.OldBytesAnswer | memoria.c:454-465 | and a read of it answers with the old process's bytes |
| MissedWrites.MissedWriteIff | memoria.c:546-565 | a missed write reads back as a flat store would have it if and only if the buffer over the entry's old bytes is the buffer over the page |
| MissedWrites.WholePageIff | memoria.c:546-565 | and it does whatever the entry held, be it free, dirty or clean, if and only if the buffer covers the page |
| MemoryRuns.MissReads | memoria.c:546-565 | a missed write makes of its page the buffer over the entry's old bytes, and changes no other page |
| MemoryRuns.StepKeepsQuotasIff | memoria.c:467-527 | a request keeps the quotas if and only if it makes no such charge |
| MemoryRuns.StepKeepsQuotas | memoria.c:467-527 | with a limit of at most 32767 no request breaks them |
| MemoryRuns.StepServes | memoria.c:444-452 | every request keeps frames and cache in order and acts like a flat store of pages, if a process that ends has none cached, a miss finds an entry and a missed write covers its page |
| MemoryRuns.RunsKeepQuotas | memoria.c:467-527 | with such a limit, in every run occupancy stays at or below the counter and the counter at or below the limit |
| MemoryRuns.RunsReadLikeFlat | memoria.c:546-576 | in every such run, ends of processes included, each page reads as a flat store would have it, from wherever it is in use until its process ends |
| MemoryRuns.ReadsAnswerLikeFlat | memoria.c:631-674 | and every read answers with the bytes last written since |
| MemoryRuns.RoomyRuns | memoria.c:491-544 | with such a limit, and processes times quota at most the entries: no miss without an entry, no page lost to another process, counters exact, own victims least recently used |
| Recency.AccessRenews | memoria.c:546-565 | a read or write that is served renews the time of its page's entry, moves the clock by one and changes no other entry |
| Recency.RunsStamp | memoria.c:560-562 | in every run each entry bears the time of the last request for its page |
| Recency.LeastRecentlyAskedGoes | memoria.c:501-544 | in every run the page a miss takes from the cache is the one asked for longest ago, of all if the process is within its quota and the cache full, of its own otherwise |
| Recency.RoomyLosesOwnOldest | memoria.c:501-544 | with room for every quota it is the process's own page that it asked for longest ago |
| Recency.FirstFreeGiven | memoria.c:509-513 | within its quota a process is given the first free entry |
| Recency.RunsCountMisses | memoria.c:467-499 | in every run a process is charged for each of its misses, up to the limit, and its quota is used up once it has missed that often |
| MemoryRuns.RunsKeepFrames | memoria.c:359-419 | in every run of grants and ends, free list and bijection hold and exactly the granted pages are found |
| MemoryServers.MemoryServer.constructor | memoria.c:176-244 | below 2^32 bytes, loading gives a sound memory with an empty cache and the table's frames reserved |
| MemoryServers.MemoryServer.LoadTable | memoria.c:184-208 | the loop writes the table and the list of free frames |
| MemoryServers.MemoryServer.GetFrame | memoria.c:598-614 | the first record with that process and page, or the number of frames |
| MemoryServers.MemoryServer.InicializePage | memoria.c:404-411 | the frame at the head of the free list gets the page |
| MemoryServers.MemoryServer.AssignPages | memoria.c:359-396 | an assignment is its step, in place |
| MemoryServers.MemoryServer.CleaningProcessEntries | memoria.c:710-735 | so is the end of a process |
| MemoryServers.MemoryServer.GetCacheEntry | memoria.c:454-465 | the scan finds the entry the specification finds |
| MemoryServers.MemoryServer.Charge | memoria.c:472-499 | the counter goes up unless the quota is used up; newcomers get one |
| MemoryServers.MemoryServer.ChooseEntry | memoria.c:501-527 | the scan returns the victim: first free, or least recently used of all or of the process's own |
| MemoryServers.MemoryServer.LeastRecentlyUsed | memoria.c:529-544 | the older of two candidates, the first one when equal |
| MemoryServers.MemoryServer.WritingMemory | memoria.c:567-576 | the page is copied into its frame |
| MemoryServers.MemoryServer.WriteBack | memoria.c:552-554 | a dirty page of someone else is written back |
| MemoryServers.MemoryServer.WritingCache | memoria.c:444-452 | a write is its step, in place, and keeps frames and cache in order |
| MemoryServers.MemoryServer.Reading | memoria.c:631-674 | so is a read |
| Schedulers.FirstWaiting | mapas/planificacion.c:179-181 | the first blocked trainer whose target is the nest |
| Schedulers.ServeUpTo | mapas/planificacion.c:109-116 | a burst serves at least one and at most quantum requests, all of them if none ends it |
| SchedulerSafety.CatchMoves | mapas/solicitudes.c:222-245 | a capture moves one pokemon from the nest to the trainer, or fails exactly when the nest is empty |
| SchedulerSafety.ServeKeeps | mapas/solicitudes.c:138-285 | a request of the running trainer keeps the whole invariant |
| SchedulerSafety.HandOnMoves | mapas/planificacion.c:176-208 | one released pokemon goes to one trainer or one nest, and nothing else moves |
| SchedulerSafety.WakesFirstWaiting | mapas/planificacion.c:176-208 | it goes to the first blocked trainer that waits for its nest, which moves to the end of the ready queue and aims at nothing |
| SchedulerSafety.HandOnKeeps | mapas/planificacion.c:176-208 | and the whole invariant is kept |
| SchedulerSafety.ReleaseKeeps | mapas/planificacion.c:169-216 | a trainer that leaves leaves nothing behind and breaks nothing |
| BlockedQueues.EarlierIsAhead | mapas/planificacion.c:228-242 | in every run, under either rule, the blocked queue is in the order in which its trainers were blocked |
| BlockedQueues.LongestBlockedWakesFirst | mapas/planificacion.c:176-212 | in every run, of two trainers that wait at one nest the one woken first has been blocked longer |
| BlockedQueues.EventOrder | mapas/planificacion.c:228-242 | an event only removes trainers from the blocked queue or appends one at its end |
| SchedulerSafety.CountIsLength | mapas/solicitudes.c:233-235 | a nest's count is its list's length if and only if that is at most 127 |
| SchedulerBursts.OnlyQuantumServed | mapas/planificacion.c:109-116 | a burst never looks past its quantum |
| Turns.ServeAnswers | mapas/solicitudes.c:138-285 | what a request is answered, and whom it changes |
| Turns.AdvanceWalks | mapas/solicitudes.c:178-194 | a request to advance moves the map's trainer one step of the walk |
| Turns.ServeUpToIs | mapas/planificacion.c:109-116 | a round-robin turn serves requests up to the first that asks for a pokemon or hangs up, at most the quantum |
| Turns.ServeUntilDoneIs | mapas/planificacion.c:70-75 | a shortest-distance turn serves them up to that one |
| Turns.ServeUpToLeads | mapas/planificacion.c:109-116 | the requests of a round-robin turn add up: where the trainer stands and what it aims at afterwards, from the steps and nests it asked for |
| Turns.ServeUntilDoneLeads | mapas/planificacion.c:70-75 | so do those of a shortest-distance turn |
| Turns.RoundRobinEnds | mapas/planificacion.c:117-136 | after a round-robin burst the trainer is last among the blocked if its turn ended at an empty nest, gone if it hung up, last among the ready otherwise |
| Turns.ShortestFirstEnds | mapas/planificacion.c:46-97 | so it is after a shortest-distance burst, which serves the first trainer without a nest for one request, or else one with no longer way than any other |
| Turns.WhereItIs | mapas/planificacion.c:117-136 | it is blocked if and only if the turn ended at an empty nest, and gone if and only if it hung up |
| Turns.WayIsWalked | mapas/planificacion.c:148-160 | the distance compared is the number of steps the walk takes |
| Turns.NewcomerStands | mapas/nivel-test.c:164-175 | a newcomer stands at (1, 1), last in the ready queue, and nothing else changes |
| SchedulerBursts.ServeUpToKeeps | mapas/planificacion.c:109-116 | the quantum loop keeps the invariant, and who found no pokemon waits at an empty nest |
| SchedulerBursts.RoundRobinKeeps | mapas/planificacion.c:100-137 | a round-robin burst keeps the invariant |
| SchedulerBursts.ShortestFirstKeeps | mapas/planificacion.c:39-98 | so does a shortest-distance burst |
| SchedulerBursts.ArrivedKeeps | mapas/nivel-test.c:164-175 | so does a new connection |
| SchedulerBursts.DroppedKeeps | mapas/nivel-test.c:176-192 | so does a blocked trainer's disconnection |
| SchedulerRuns.RunsKeepEverything | mapas/planificacion.c:169-216 | in every run each pokemon is in one place, each trainer in one queue, counts are right, nobody is blocked at a nest that has pokemons |
| SchedulerRuns.StartsInOrder | mapas/nivel-test.c:348-370 | a map with loaded nests and nobody playing is a start |
| SchedulerRuns.QueueMoves | mapas/planificacion.c:100-137 | a round-robin burst takes the head of the ready queue; all else only adds to its end |
| SchedulerRuns.NobodyOvertakes | mapas/planificacion.c:100-137 | a trainer at ready position k is dispatched after exactly k bursts |
| MapServers.MapServer.constructor | mapas/nivel-test.c:348-370 | a map with loaded nests is valid |
| MapServers.MapServer.Attend | mapas/solicitudes.c:138-285 | a request does what its specification says |
| MapServers.MapServer.FindWaiting | mapas/planificacion.c:179-181 | the scan of the blocked queue finds the first that waits for the nest |
| MapServers.MapServer.Unblock | mapas/planificacion.c:237-242 | the trainer leaves the blocked queue for the end of the ready queue |
| MapServers.MapServer.HandOnFirst | mapas/planificacion.c:176-208 | one pokemon is handed on as specified |
| MapServers.MapServer.ReleaseResources | mapas/planificacion.c:169-216 | the release loop hands on all of them |
| MapServers.MapServer.ServeQuantum | mapas/planificacion.c:109-116 | the quantum loop is the specified turn |
| MapServers.MapServer.RunRoundRobin | mapas/planificacion.c:100-137 | the burst is the specified one and keeps the map valid |
| MapServers.MapServer.FindNearest | mapas/planificacion.c:148-167 | nobody in the ready queue is nearer to its nest than the trainer chosen |
| MapServers.MapServer.RunShortestFirst | mapas/planificacion.c:39-98 | whatever each ready trainer would send, the burst is the specified one of the trainer chosen and keeps the map valid |
| MapServers.MapServer.Arrive | mapas/nivel-test.c:164-175 | the newcomer starts at (1, 1) at the end of the ready queue |
| MapServers.MapServer.Disconnect | mapas/nivel-test.c:176-192 | a blocked trainer's pokemons are handed on and it is gone |
| Walks.NextMove | entrenador/src/Entrenador/entrenador.c:293-305 | the move changes axis while both coordinates differ, and stays on the one that does otherwise |
| Walks.MoveGetsNearer | entrenador/src/Entrenador/entrenador.c:277-305 | each request and answer brings client and map, in step, one nearer; nothing wraps around |
| Walks.Route | entrenador/src/Entrenador/entrenador.c:51-60 | the walk takes exactly the Manhattan distance in steps |
| Walks.RouteArrives | entrenador/src/Entrenador/entrenador.c:51-60 | it ends at the nest |
| Walks.NoShorterWay | entrenador/src/Entrenador/entrenador.c:51-60 | no sequence of moves that stays on the board is shorter |
| Walks.RouteAlternates | entrenador/src/Entrenador/entrenador.c:293-305 | moves alternate between the axes as long as both coordinates differ |
| Walks.Coach.MoveToPokemon | entrenador/src/Entrenador/entrenador.c:51-60 | the loop makes exactly that walk and ends at the nest, on the map as well |
| Witnesses.LastByteIsMissed | pokedex-server/pokedex-server.c:1238 | reading the last byte of a two-byte file gives nothing |
| Witnesses.EmptyFileRunsWild | pokedex-server/pokedex-server.c:1238 | reading a byte of an empty file follows END_OF_FILE |
| Witnesses.RangeWrapsAround | pokedex-server/pokedex-server.c:1239 | a read of 2^32 - 1 bytes from byte 10 of a file of 100 comes back with the count -1 |
| Witnesses.LastBlockIsRefused | pokedex-server/pokedex-server.c:1070 | a 64-byte file, one free block, the last: a write and a truncate to 65 bytes are refused |
| Witnesses.FullTableIsClaimed | pokedex-server/pokedex-server.c:475 | mkdir in a table of 2048 files answers that the directory is there, and it is not |
| Witnesses.FileHidesDirectory | pokedex-server/pokedex-server.c:455-498 | mkdir of the name of a file, with free slots, answers that the directory is there, and it is not found |
| Witnesses.ChildIsLost | pokedex-server/pokedex-server.c:1699-1701 | rmdir of a directory with a child leaves the child unreachable |
| Witnesses.NameIsGivenTwice | pokedex-server/pokedex-server.c:455-498 | mkdir and mknod of a file's name give it to a second node |
| Witnesses.StaleBytesStay | memoria.c:556-557 | writing one byte of a page that is not cached, in a sound memory, leaves 23 bytes that are not the page's |
| Witnesses.EntryIsOrphaned | memoria.c:710-735 | ending a process with a cached page leaves an entry that belongs to nobody |
| Witnesses.OldBytesComeBack | memoria.c:710-735 | a process that starts under the number of one that ended reads the bytes it wrote |
| Witnesses.TableIsOverwritten | memoria.c:567-576 | with 81920 frames of 65536 bytes a page is written back over the table |
| Witnesses.CounterRunsNegative | memoria.c:480-483 | with a limit of 40000 and one entry, a run of 32768 reads of two pages in turn ends with the counter at -32768 and the entry held |
| Witnesses.NestCountsBackwards | mapas/solicitudes.c:233-235 | in a map in order, a nest of 128 pokemons counts -128 |

## Left out

- Sockets, message framing, `mmap`, configuration, logging, drawing, signals and file copying: each request
  arrives decoded, and what the operating system provides is a parameter.
- The per-slot read-write locks of the path walks and the locks of the cache entries: walks and cache run
  one request at a time. Locking matters in `Interleaving`, where the slot's write lock is what keeps one
  request per file at a time, and where directory operations do not take part.
- `lastmod` and the wall-clock strings of the cache: the former is not modelled, the latter are a counter
  that goes up with every use.
- Servers.Server.Write: does not model paths made of directories only, for which the server goes on with a
  slot number it never set, nor writes that end at or beyond 2 GiB.
- Servers.Server.Truncate: does not model paths made of directories only, for the same reason.
- Servers.Server.Unlink: does not model paths made of directories only, for the same reason.
- Servers.Server.Read: does not model "/", for the same reason, nor directories, which have a first block but
  no chain.
- Servers.Server.Rename: does not model a rename of "/", for the same reason.
- Servers.Server.Rmdir: does not model a path of several slashes alone, such as "//", which the code does not
  take for "/", so that it goes on with a slot number it never set; without names the model answers as for "/".
- FileTables.FileTable.Rmdir: does not model such a path either.
- FileTables.FileTable.Rename: does not model a rename of "/", for the same reason.
- Stores.Store.Write: does not model writes that end at or beyond 2 GiB, where the code mixes signed and
  unsigned sizes.
- A read of an empty file: the model stops where the code follows END_OF_FILE out of the mapping table.
- The bytes of a gap between the old end of a file and a later write: the code does not clear them, and the
  model says nothing about them.
- Bits of the bitmap and cells of the mapping table beyond the data blocks.
- The bytes a fresh node record holds behind its name are a parameter, one for each request.
- `mkdir` unlocks slot -5 after a full table; the locks are not modelled, the walk that follows is.
- The branch of `osada_rename` for a destination that is a directory: sequentially the walk has already
  followed such a destination, so the branch is never taken; a destination made of directories only gets no
  reply.
- MemoryServers.MemoryServer.AssignPages: does not model process numbers below one, which the inverted table
  uses for itself.
- MemoryServers.MemoryServer.CleaningProcessEntries: does not model them either.
- MemoryServers.MemoryServer.WritingCache: does not model requests on pages that were not granted, and ranges
  beyond the page, which the code does not check.
- MemoryServers.MemoryServer.Reading: does not model them either.
- MemoryServers.MemoryServer.constructor: is stated below 2^32 bytes of frames; what happens beyond is
  `Frames.IsolatedIff`.
- Frames.StoredOnlyThere: is stated for memory below 2^32 bytes, for the same reason.
- A miss for which the cache has no entry to give is answered `Stuck`; the code goes on with entry -1.
- A write or read after a process ended with pages still cached.
- The last-pokemon requests and the deadlock detector with its battles; captures of the last pokemon are not
  part of this model.
- How the sort before a capture orders a nest's list: any rearrangement is allowed.
- How the sort by distance orders trainers at equal distance: any nearest trainer is allowed.
- A blocked trainer that sends bytes instead of closing its connection is dropped from its queue by the code;
  trainers here keep to the protocol.
- Requests for nests that do not exist, which the code does not check.
- MapServers.MapServer.RunRoundRobin: does not model a trainer that asks for a pokemon of a nest other than
  the one it located last; the trainer program never does.
- MapServers.MapServer.RunShortestFirst: does not model that either.
- Trainers are values in a map by socket number, so one record reached from two lists is one entry here.
- The list of all trainers kept for drawing and deadlock detection.
