# Verification of the networked file system

A Dafny model of the naming server and the storage servers, with proofs. The naming server keeps a path index, a byte trie on the heap behind a small cache that moves entries to the front, and a table of storage servers, each with two backups and a log of commands that wait for it while it is away. Storage servers scan a directory tree, register it, execute CREATE and DELETE, and keep tables of the files that are being read and written.

`dafny verify dfyconfig.toml` checks the project.

## How it is built

| file | what it holds |
|---|---|
| `Types.dfy` | bytes, paths, records, addresses |
| `PathMaps.dfy` | what the trie stands for, and what update, delete and directory copy do to it |
| `TrieShape.dfy`, `Trie.dfy` | the trie as heap objects, proved to refine `PathMaps` |
| `Listing.dfy` | directory listing through one shared buffer |
| `Lru.dfy`, `Cache.dfy` | the eviction policy over whole runs; the cache as an array shifted in place |
| `PathIndex.dfy`, `IndexRuns.dfy`, `NameIndex.dfy` | trie and cache together: values, runs, heap objects |
| `PathLists.dfy`, `Scan.dfy` | the registered list of paths, and the scan that produces it |
| `Cluster.dfy` | server table, path index and disks as one state, with one function for each request and event |
| `Replication.dfy`, `Backups.dfy`, `Mirrors.dfy`, `Refusals.dfy` | commands, logs and backups over all runs of the cluster, refused deletions included |
| `Ownership.dfy`, `Coherence.dfy`, `Records.dfy` | what lookups answer over all runs of the cluster: whose records, agreement of cache and trie, agreement of records and disks |
| `Outcomes.dfy`, `Replies.dfy`, `Returns.dfy` | what each request and event leads to and what clients are told, in fields, bytes and records; runs in which a server is lost and comes back |
| `ServerTable.dfy`, `NamingServer.dfy` | the table and the handlers in memory, proved to do what `Cluster` says |
| `InFlight.dfy`, `Exclusion.dfy`, `FileManager.dfy` | reads, writes and deletions at lock granularity: theorems over all interleavings, and the tables as arrays |

The main results:

- The trie refines a map. No two byte strings lead to one node, in every state that the operations reach; a directory copy shares nothing with its source and means the same for every relative position of source and destination.
- Lookups through the cache agree with the trie throughout a run if and only if each step met a guard that can be checked before it. This holds for runs of the index and for runs of the whole cluster, where only registrations, deletions and directory copies have a guard: a registered path is not cached with another record, a deletion leaves no cached path without its record, a copy leaves no cached path below its destination with a record that it changed. For registrations this counts the moment between storing the paths and assigning backups: the lookups that follow can push a wrong entry out of a full cache.
- DELETE of a recorded path takes exactly that record out of the trie if and only if the record names its own path and, when the path is cached together with others, the next entry in the cache names it too. Both parts fail in short runs. The handler keeps a pointer into the first place of the cache, the removal shifts another entry into that place, and that entry's path is then deleted from the trie. And a directory copy keeps the `file_path` of the source, so that DELETE of a copied path deletes the record of the source.
- Every answer of a lookup names a server that has the file, up to pending commands, throughout a run if and only if every new server has the paths it registers and no deletion leaves a record for what it removes. The test is made before the deletion: of all records but the one it takes, and all entries that stay cached, none may name a file at or below the path on its owner, or at or below the copy of the path on a backup. Where cache and trie agree and records name their own paths, this means: the path is not cached or cached alone, and no other record of the owner is at or below it. Three kinds of deletion fail it on the owner, each shown by a run from the start: one that takes another record than that of its path; one of a directory with recorded paths below; one of a file whose record a directory copy has put elsewhere as well. In runs that pass, READ names a file that is there.
- In every run the keys in the cache are those that the eviction policy gives for the answered lookups and the removals of the run. The policy keeps, at any capacity, a prefix of what it keeps at any larger one, and a key's place is the number of paths used since it was; so a path stays cached until a deletion removes it or eight others are answered.
- Each request and event is described a second time by what it leads to, entry by entry and path by path. A server whose heartbeat stops is inactive; one that comes back is active, with an empty log and with everything it missed on its disk. CREATE succeeds, and its path is then answered with the owner of the directory, exactly if the name is no file name or the file was not there. COPY changes records exactly for two directories on active servers.
- In every run, the disk of a server with its pending commands applied is what it would be had every command reached it at once. So an inactive server that comes back catches up, and a path created or deleted on a server is created or deleted in the copy on each backup. A deletion that the owner refuses because a client uses the file is forwarded all the same. Over any run in which nobody else writes either, a path and its copy agree at every moment if and only if they did at the start and no refused deletion meets the path, at or below its own, while the owner has it; and, having agreed at the start, they do so in the end if and only if the last thing that happened to the path was no such refusal. A run of three servers shows it.
- Every record names a server of the table. A server registered as the third or later leaves all servers with two distinct backups exactly when two servers before it are active; then READ survives any two failures.
- A scan records its root and exactly the files and directories that lead to it by names other than `.` and `..`, through directories that can be read and before any entry that refuses stat. The registered list of paths arrives as it was scanned, and changes the answers of the naming server for exactly the scanned paths.
- The in-flight tables hold exactly one entry for each request in flight and each one that failed, if and only if no table overflowed and no write with ` --sync` ended. A check refuses a request exactly when one that it looks for is in flight or failed, so a failed read blocks all later writes to its file. A reader and a writer of one file are never in flight together if and only if each finds, when it registers, nothing for its path in the other table but leftovers of failures; the check that a request made before does not decide this, and an interleaving shows both in flight. The same is proved for a deletion and the users of what it deletes.

## Assumptions about the environment

`Cluster.Enabled` and the preconditions of theorems say what is assumed: a server that registers has an address of its own with an ip and a port other than 0 and -1, names at least one path, and comes back only after it was marked inactive; only active servers receive files by transfer. A handler of the naming server runs as one step, while the source serves each connection in a thread of its own and shares the trie, the cache and the server table among them without a lock: what interleaved handlers do to these is not part of this model. On the storage servers, where the tables of files in use have locks, the steps are the critical sections. Messages to an active server arrive and are answered; whether a storage server refuses a deletion is arbitrary; replay is one step; marking a server inactive is an event. The contents of disks at registration and the folder transfers are arbitrary sets of paths (`Unpack`). On a real disk these hold the directories above each path; commands keep it so, and a deletion of what is not there then changes nothing.

## Model

| member | source | states |
|---|---|---|
| TrieIndex.Trie.HeapShape | nfs_project/naming_server/naming_utils.c:86-143 | in a valid trie, two byte strings that lead to the same node are equal, and so are two whose nodes share a record |
| TrieIndex.Trie.WalkMeaning | nfs_project/naming_server/naming_utils.c:299-309 | following child pointers byte by byte from the root reaches exactly the node that the abstract map gives, or NULL when it gives none |
| TrieIndex.Trie.FindTrieNode | nfs_project/naming_server/naming_utils.c:299-309 | the loop returns the node at the path, and NULL exactly when no node is there |
| TrieIndex.Trie.FindRecord | nfs_project/naming_server/naming_utils.c:155-170 | the record returned is the stored one, NULL exactly when the path has none |
| TrieIndex.Trie.UpdateFileInfo | nfs_project/naming_server/naming_utils.c:109-143 | the map gains the record (ip, port, path) at the path and nodes at all its prefixes, nothing else changes, and the trie stays a trie |
| TrieIndex.Trie.DeleteFileInfo | nfs_project/naming_server/naming_utils.c:173-189 | the record at the path goes, all nodes and all other records stay |
| TrieIndex.Trie.CopyTrieNode | nfs_project/naming_server/naming_utils.c:272-296 | the copy consists of fresh nodes and records only and holds the source subtree, record contents included, moved to the destination |
| TrieIndex.Trie.InsertTrieNode | nfs_project/naming_server/naming_utils.c:312-332 | overwriting the struct at the path replaces everything at or below it by the given tree and keeps the rest and the shape |
| TrieIndex.Trie.CopyDirectoryTrie | nfs_project/naming_server/naming_utils.c:335-350 | the trie refines the map operation of copying, for every source and destination, equal and nested ones included |
| PathMaps.CopyMeaning | nfs_project/naming_server/naming_utils.c:335-350 | after a copy, a path at or below the destination answers as its counterpart below the source did, every other path as before |
| PathMaps.CopyNodes | nfs_project/naming_server/naming_utils.c:335-350 | the same for nodes, those on the way to the destination being made; without a source node nothing changes |
| TrieShape.OverwriteLinked | nfs_project/naming_server/naming_utils.c:330-332 | the shallow struct assignment leaves a trie: every node again has exactly one byte string |
| Listing.ListFiles | nfs_project/naming_server/naming_utils.c:247-266 | lists exactly the stored paths that have the argument as a byte prefix, in strictly ascending unsigned order, when what is at or below the argument fits the buffers |
| Listing.TraverseTrie | nfs_project/naming_server/naming_utils.c:222-245 | with one buffer for all levels, the part above the current depth is preserved and the subtree is listed exactly and in order |
| Listing.ListingUnique | nfs_project/naming_server/naming_utils.c:222-266 | an ascending listing is determined by its set of paths, so each path comes once |
| LookupCache.Cache.Find | nfs_project/naming_server/naming_utils.c:34-48 | a hit exactly for cached keys, which come to the front; a miss changes nothing |
| LookupCache.Cache.Add | nfs_project/naming_server/naming_utils.c:51-67 | the entry comes first, a full cache loses its last, the rest moves by one |
| LookupCache.Cache.Remove | nfs_project/naming_server/naming_utils.c:70-83 | the first entry with the key goes, the order of the rest stays; a lone entry leaves its contents behind in the array |
| LookupCache.Cache.RemoveThrough | nfs_project/naming_server/naming_server.c:838-840 | the path read behind the pointer after the removal: that of the entry now first if the pointer leads to the first place, else the path removed |
| LookupCache.FrontedFollowsPolicy | nfs_project/naming_server/naming_utils.c:38-44 | on the keys, a hit is an access of the eviction policy |
| LookupCache.AddedFollowsPolicy | nfs_project/naming_server/naming_utils.c:51-67 | on the keys, adding a key that is not cached is an access of the eviction policy |
| LookupCache.DroppedFollowsPolicy | nfs_project/naming_server/naming_utils.c:70-83 | on the keys, removal is the removal of the eviction policy |
| Lru.CachedMeaning | nfs_project/naming_server/naming_utils.c:34-83 | over any run of uses and removals the keys stay distinct, within capacity, and each was used and not removed since |
| Lru.StackInclusion | nfs_project/naming_server/naming_utils.c:34-83 | at every moment of every run the cache is a prefix of the cache of any larger capacity |
| Lru.RecencyOrder | nfs_project/naming_server/naming_utils.c:34-67 | over any run the keys stand in order of last use, and none used later than a cached key is missing, unless removed since |
| Lru.PositionIsRecency | nfs_project/naming_server/naming_utils.c:34-83 | the place of a cached key is the number of paths used, and not removed, since its own last use |
| Lru.Survives | nfs_project/naming_server/naming_utils.c:34-83 | a key used and not removed stays cached as long as fewer other paths are used than the cache has places |
| PathIndex.DeleteThroughPointer | nfs_project/naming_server/naming_server.c:838-840 | the two calls through the pointer of the lookup amount to the deletion of the model |
| PathIndex.NextWellFormed | nfs_project/naming_server/naming_utils.c:34-83 | every operation keeps the cache within eight entries with distinct keys |
| PathIndex.TransparentIsCoherent | nfs_project/naming_server/naming_utils.c:145-171 | lookups through the cache and past it agree on all paths exactly when every entry repeats the record of its key |
| IndexRuns.StepExact | nfs_project/naming_server/naming_utils.c:109-219 | from a state in which lookups agree with the trie, a step leads to such a state exactly when its guard holds |
| IndexRuns.TransparencyExact | nfs_project/naming_server/naming_utils.c:34-219 | over any run of registrations, creations, lookups, deletions and copies, lookups agree with the trie at every moment if and only if every step met its guard |
| IndexRuns.DeleteExact | nfs_project/naming_server/naming_server.c:768-840 | a deletion keeps entries and records in agreement exactly when the path is unknown, or the entry shifted to the front is not still cached under the path it names |
| IndexRuns.KeyDeletedExact | nfs_project/naming_server/naming_server.c:838-840 | the record that goes is the one asked for if and only if the record that the lookup gave names the path, and so does the entry next in the cache when the path is cached with others |
| IndexRuns.DeleteRemovesExactly | nfs_project/naming_server/naming_server.c:838-840 | in every state that runs reach, after copies or not: DELETE takes exactly the record of its path out of the trie if and only if that same condition holds |
| IndexRuns.SelfNamedDelete | nfs_project/naming_server/naming_server.c:838-840 | where records and entries agree and name their own paths, the condition is: the path is not cached, or cached alone |
| IndexRuns.DeleteOfCopiedPath | nfs_project/naming_server/naming_utils.c:272-296 | after a directory copy, DELETE of a path below the destination, cached nowhere, deletes the record of the source and leaves its own |
| IndexRuns.DeleteOfCachedPath | nfs_project/naming_server/naming_server.c:838-840 | a run of two registrations and two lookups after which DELETE of one path deletes the record of the other |
| IndexRuns.StaleAfterCopy | nfs_project/naming_server/naming_server.c:486-551 | after a copy the cache contradicts the trie on exactly the cached paths at or below the destination whose record the copy changed |
| IndexRuns.CopyMakesStale | nfs_project/naming_server/naming_server.c:486-551 | a copy onto a directory whose record differs from the source's always leaves that directory stale in the cache |
| IndexRuns.StaleRun | nfs_project/naming_server/naming_server.c:486-551 | the shortest such run: two registered directories and one copy |
| IndexRuns.PlainRunSelfNamed | nfs_project/naming_server/naming_utils.c:119-142 | in runs without copies every record and entry carries the path under which it is found |
| IndexRuns.RunFollowsPolicy | nfs_project/naming_server/naming_utils.c:34-219 | in every run, copies and unguarded deletions included, the keys of the cache are those of the eviction policy with capacity 8 for the answered lookups and the keys removed |
| IndexRuns.StaysCached | nfs_project/naming_server/naming_utils.c:34-83 | in every run, a path whose lookup was answered stays cached until a deletion removes its key or eight other paths are answered |
| NameIndexes.NameIndex.FindFileInfo | nfs_project/naming_server/naming_utils.c:145-219 | cache first, then trie, with the pointer returned and the state left behind; a failed lookup touches nothing |
| NameIndexes.NameIndex.FindKeeping | nfs_project/naming_server/naming_server.c:99-116 | a failed second lookup leaves the record behind the first pointer untouched |
| NameIndexes.NameIndex.DeleteThrough | nfs_project/naming_server/naming_server.c:838-840 | cache and trie after the two calls through the pointer, aliasing included |
| PathLists.TokensOfJoined | nfs_project/naming_server/naming_server.c:1230-1235 | splitting the comma-joined list gives the list back |
| PathLists.TokensSplit | nfs_project/naming_server/naming_server.c:1230-1235 | for any text: it is split at each comma |
| PathLists.TokensOfOne | nfs_project/naming_server/naming_server.c:1230-1235 | and a piece without commas is one path, or none if it is empty |
| PathLists.TwoPaths | nfs_project/storage_server/storage_server.c:161-168 | in bytes: two paths are joined by one comma, 44, and split there again |
| PathLists.FirstTokenStable | nfs_project/naming_server/naming_server.c:998-1017 | strtok on the text it already cut off finds the same first path, however often |
| PathLists.TruncatedTokens | nfs_project/naming_server/naming_server.c:998-1017 | after strtok the text in the table holds its first path only |
| PathLists.JoinPaths | nfs_project/storage_server/storage_server.c:161-168 | the strcat loop builds the comma-joined list |
| PathLists.Strtok | nfs_project/naming_server/naming_server.c:1230-1235 | one call skips commas, returns the bytes up to the next comma or the end, and goes on behind it |
| Scan.ScanComplete | nfs_project/storage_server/storage_server.c:84-130 | of every tree, the entries `.` and `..`, unreadable directories, special files and failing stats included, a scan records the root first, then exactly the nodes below it, 1 + 2 * directories + files entries in all |
| Scan.ScanArrives | nfs_project/storage_server/storage_server.c:84-169 | every scan of names without commas arrives at the naming server as it was recorded, with the scanned directory as the first path |
| Scan.Scanner.ScanDirectory | nfs_project/storage_server/storage_server.c:84-130 | the recursion over the shared table appends what the scan records, as far as the table has room, early returns and the stop at a full table included |
| Scan.ShortFits | nfs_project/storage_server/storage_server.c:84-130 | a scan no longer than the room left never writes past the table |
| Scan.FlatFits | nfs_project/storage_server/storage_server.c:84-130 | files alone never leave the table, however many |
| Scan.FullFits | nfs_project/storage_server/storage_server.c:84-130 | a full table is not left exactly if a file stops the loop before any directory |
| Scan.WholeScan | nfs_project/storage_server/storage_server.c:84-130 | a scan of at most 4026 paths is recorded in full, a longer one that stays inside the table is cut off there |
| Replication.DeferredLog | nfs_project/naming_server/naming_server.c:85-96 | in every run, each disk with its pending commands applied is what it would be had every command directed to the server been applied at once, in order of issue |
| Replication.StepDirected | nfs_project/naming_server/naming_server.c:1180-1416 | the same for one step: request, refused deletion, registration, return or loss, with distinct addresses, empty logs of active servers and real backups kept |
| Replication.ReturnDirected | nfs_project/naming_server/naming_server.c:1201-1212 | a return changes nothing of what any server holds up to pending commands |
| Replication.ToAllDirected | nfs_project/naming_server/naming_server.c:174-349 | a command to an owner and its backups reaches each of them once, on disk or in the log, whoever is active |
| Replication.CaughtUp | nfs_project/naming_server/naming_server.c:1128-1178 | an active server holds exactly what it was told since its registration |
| Backups.AlwaysTwoBackups | nfs_project/naming_server/naming_server.c:1240-1384 | when each server from the third on finds two active ones, every server always has two backups, different from it and from each other |
| Backups.RegistrationBacksExact | nfs_project/naming_server/naming_server.c:1240-1384 | a registration with room leaves everyone with two such backups exactly when two servers before it are active |
| Backups.CoveredExact | nfs_project/naming_server/naming_server.c:1240-1384 | so, for registrations with room, the condition of AlwaysTwoBackups is exact |
| Backups.LastIsBacked | nfs_project/naming_server/naming_server.c:1339-1378 | the downward scan gives the last server the two highest active servers before it, and changes nothing else |
| Backups.LayoutOfBackups | nfs_project/naming_server/naming_server.c:1242-1384 | when all are active at each registration the layout is 0 to (1, 2), 1 to (0, 2), i to (i-1, i-2), whatever happens besides |
| Backups.StepKept | nfs_project/naming_server/naming_server.c:1201-1416 | no request, loss or return changes who backs whom |
| Mirrors.TouchesMirrored | nfs_project/naming_server/naming_server.c:210-215 | a command touches a path exactly when the forwarded command touches its copy below the root of the backup |
| Mirrors.StepMirrored | nfs_project/naming_server/naming_server.c:195-349 | a step keeps a path and its copy in agreement, and brings them into agreement if it touches the path |
| Mirrors.OwnCommandMirrored | nfs_project/naming_server/naming_server.c:195-349 | a CREATE or DELETE that reaches a server brings every path it touches into agreement with its copy |
| Mirrors.MirrorConvergence | nfs_project/naming_server/naming_server.c:195-349 | over any steady run, a path created or deleted on a server since the start, or agreed on then, is on the server exactly when its copy is on the backup, up to pending commands, unless others write the path or the copy |
| Mirrors.MirrorOnDisk | nfs_project/naming_server/naming_server.c:846-963 | the same for the disks themselves once both servers are active |
| Mirrors.ReadFromMirror | nfs_project/naming_server/naming_server.c:1040-1089 | a READ sent to a backup names a path that is there exactly when the owner, caught up, has the file |
| Mirrors.StepKeepsRoles | nfs_project/naming_server/naming_server.c:1215-1384 | from three servers on, a step leaves all backups as they are exactly when it is steady: no registration into a full table that would give the last server other backups |
| Mirrors.LastKeptExact | nfs_project/naming_server/naming_server.c:1339-1384 | the downward scan leaves the table as it is exactly when the last server already has the two highest active servers before it |
| Mirrors.RunKeepsRoles | nfs_project/naming_server/naming_server.c:1215-1384 | from three servers on, backups stay assigned through steady runs |
| Refusals.RefusalExact | nfs_project/naming_server/naming_server.c:826-963 | after a deletion that the owner refused, owner and backup agree on a path exactly when it is elsewhere and they agreed before, or at or below the deleted one and the owner does not have it |
| Refusals.StepMirrorExact | nfs_project/naming_server/naming_server.c:195-963 | what any step makes of the agreement on a path, both directions |
| Refusals.MirrorExact | nfs_project/naming_server/naming_server.c:195-963 | over any steady run, refused deletions included, a path and its copy agree in the end, up to pending commands, if and only if the last thing that happened to the path is neither a refused deletion of what the owner has nor a start without agreement, unless others write the path or the copy |
| Refusals.MirrorAlways | nfs_project/naming_server/naming_server.c:195-963 | and they agree at every moment if and only if they did at the start and no refused deletion meets what the owner has |
| Refusals.RefusalParts | nfs_project/naming_server/naming_server.c:826-963 | a run from the start, three registrations and a refused deletion, after which the owner has the file and its backup lost the copy |
| Ownership.ClusterIndexRun | nfs_project/naming_server/naming_server.c:97-551 | the path index of every reachable state is that of a run of its own operations, which store records for servers of the table only |
| Ownership.OwnersAreServers | nfs_project/naming_server/naming_server.c:1215-1235 | in every reachable state each record of trie and cache names a server of the table |
| Ownership.AnswerIsServed | nfs_project/naming_server/naming_server.c:124-140 | so the owner of whatever a lookup answers is found in the table |
| Ownership.ReadExact | nfs_project/naming_server/naming_server.c:1039-1089 | READ names a server exactly when the owner or a backup is active, and then the first active one in that order |
| Ownership.ReadWithTwoInactive | nfs_project/naming_server/naming_server.c:1039-1089 | in a state where every server has two distinct backups and at most two servers are inactive, READ of any owned path names an active server |
| Ownership.ReadSurvivesTwoFailures | nfs_project/naming_server/naming_server.c:1019-1089 | in covered runs with at most two inactive servers, READ of a known path names an active server |
| Outcomes.LostOutcome | nfs_project/naming_server/naming_server.c:1405-1416 | when the heartbeat of a server stops, its entry becomes inactive, and nothing else changes |
| Outcomes.LostUnknown | nfs_project/naming_server/naming_server.c:1405-1416 | a lost connection that matches no entry changes nothing |
| Outcomes.ReturnOutcome | nfs_project/naming_server/naming_server.c:1201-1212 | an inactive server that registers again is active, its log empty, and its disk what it would be had it missed nothing; nothing else changes |
| Outcomes.CommandOutcome | nfs_project/storage_server/file_manager.c:405-514 | creating makes the path and the directories above it, deleting takes the path and what is below it |
| Outcomes.NobodyTold | nfs_project/naming_server/naming_server.c:195-272 | no command goes to a backup field that is not set or names no server |
| Outcomes.CreateOutcome | nfs_project/naming_server/naming_server.c:97-352 | CREATE that reaches the owner: the disk of the owner, the answer for the path, the cache, and for every other server what it executes or keeps as a backup |
| Outcomes.CreateNowhere | nfs_project/naming_server/naming_server.c:97-173 | when the directory is unknown, the path known, or the owner without entry, naming port or activity, CREATE only looks up both |
| Outcomes.DeleteOutcome | nfs_project/naming_server/naming_server.c:762-965 | the same for DELETE, executed or refused |
| Outcomes.DeleteNowhere | nfs_project/naming_server/naming_server.c:762-808 | a path without a dot changes nothing; an unknown one, or one whose owner cannot be asked, is only looked up |
| Outcomes.ReadUnknown | nfs_project/naming_server/naming_server.c:1019-1031 | READ of an unknown path is answered with an empty record, and READ only looks up |
| Outcomes.ReadOutcome | nfs_project/naming_server/naming_server.c:1036-1089 | an active owner is named, with the path of the record; with owner and backups inactive nobody is |
| Outcomes.ReadFailsOver | nfs_project/naming_server/naming_server.c:1042-1070 | with the owner inactive its first active backup is named, with its root before the path |
| Outcomes.ReadUnowned | nfs_project/naming_server/naming_server.c:1033-1039 | a record of a server that is not in the table is handed out as it is |
| Outcomes.CopyOutcome | nfs_project/naming_server/naming_server.c:484-551 | COPY of a directory between active servers: below the destination is answered what was below the source, elsewhere what was there |
| Outcomes.CopyNowhere | nfs_project/naming_server/naming_server.c:498-541 | otherwise only lookups, the second one only if the source is served |
| Outcomes.FileCopyOutcome | nfs_project/naming_server/naming_server.c:582-635 | COPY of a file: the same lookups |
| Outcomes.TransferOutcome | nfs_project/naming_server/naming_server.c:697-757 | files that arrive by a transfer are added to one disk, and nothing else changes |
| Outcomes.RegisterOutcome | nfs_project/naming_server/naming_server.c:1215-1240 | a new server with room: its entry in every field, its disk, the records of its paths; all earlier entries but for their backups |
| Outcomes.RegisterFull | nfs_project/naming_server/naming_server.c:1215-1240 | without room: no entry, no disk, no record |
| Outcomes.ThirdOutcome | nfs_project/naming_server/naming_server.c:1242-1384 | the backups of all three when the third arrives, whoever is active |
| Outcomes.LaterOutcome | nfs_project/naming_server/naming_server.c:1339-1384 | a later one is backed by the last two active servers before it, or the only one, or nobody |
| Outcomes.RegisterLookups | nfs_project/naming_server/naming_server.c:1215-1384 | the index after a registration: the paths stored, then the lookups of backup(), none with fewer than two servers before |
| Outcomes.ThirdLookups | nfs_project/naming_server/naming_server.c:697-757 | the roots that backup() looks up when the third arrives, in order |
| Outcomes.LaterLookups | nfs_project/naming_server/naming_server.c:697-757 | and those when a later one does |
| Outcomes.FindOutcome | nfs_project/naming_server/naming_utils.c:145-219 | a lookup: the entry moves to the front, or the record is put in front of at most seven others, or nothing |
| Outcomes.StoreOutcome | nfs_project/naming_server/naming_utils.c:109-143 | storing a record: the record, the nodes at its prefixes, and the cache untouched |
| Outcomes.DeleteIndexOutcome | nfs_project/naming_server/naming_server.c:838-840 | the record and the entries that a deletion takes, by place in the cache |
| Replies.CreateReplies | nfs_project/naming_server/naming_server.c:97-352 | the reply of CREATE in every case; success exactly if the name is no file name or the path is not on the disk |
| Replies.DeleteReplies | nfs_project/naming_server/naming_server.c:762-965 | the reply of DELETE in every case |
| Replies.InfoReplies | nfs_project/naming_server/naming_server.c:412-435 | the reply of INFO and STREAM in every case |
| Replies.CopyReplies | nfs_project/naming_server/naming_server.c:436-695 | the reply of COPY in every case |
| Replies.CopyOnly | nfs_project/naming_server/naming_server.c:451-635 | COPY changes the trie exactly for two directories that are answered by active servers; in every other case it only looks up, or does nothing |
| Returns.LostAlone | nfs_project/naming_server/naming_server.c:1405-1416 | a run from the start: the only server registers, READ names it, it is lost, and READ names nobody |
| Returns.MissedCreate | nfs_project/naming_server/naming_server.c:1128-1212 | a backup that is lost, misses a CREATE and comes back has exactly its copy of the file, and the directories above, besides what it had |
| Returns.MissedAndCaughtUp | nfs_project/naming_server/naming_server.c:1128-1212 | a run from the start in which that happens |
| Coherence.StepSoundExact | nfs_project/naming_server/naming_server.c:97-1384 | from a state in which lookups agree with the trie, a request or event leads through such states only exactly when its guard, a test on the state before, holds; creation, reading, loss and return have none |
| Coherence.TrustExact | nfs_project/naming_server/naming_server.c:97-1384 | over any run of the cluster, lookups agree with the trie at every moment, that between the strtok loop of a registration and its backups included, if and only if every registration, deletion and directory copy met its guard |
| Coherence.RecordedSound | nfs_project/naming_server/naming_server.c:1215-1235 | storing the registered paths keeps lookups in agreement exactly when each is not cached, or cached with the record it gets |
| Coherence.PushedOut | nfs_project/naming_server/naming_server.c:1240-1384 | where that fails the lookups of backup() may still push the wrong entry out: of a full cache whose last entry it is, when the root of the first server is not cached |
| Coherence.DeleteTakesAnother | nfs_project/naming_server/naming_server.c:762-840 | a run of the cluster from its start, a registration, two lookups and a deletion, after which the deleted file has a record and no file, and another has its file and no record |
| Coherence.RegistrationAnswers | nfs_project/naming_server/naming_server.c:1215-1235 | after a scan and a registration of paths not cached with other records, lookups answer exactly the scanned directory and what is below it with the new server, every other path as before |
| Coherence.CreatedInherits | nfs_project/naming_server/naming_server.c:188-193 | after creation a lookup answers the path with the owner of its directory in every state, and where lookups agree with the trie no other answer changes |
| Records.StepHonestExact | nfs_project/naming_server/naming_server.c:97-1384 | from a state in which every answer has its file, a request or event leads to such a state exactly when its guard, a test on the state before, holds |
| Records.HonestyExact | nfs_project/naming_server/naming_server.c:97-1384 | over any run of the cluster, every answer names a server that has the file, up to pending commands, at every moment if and only if all guards were met |
| Records.RemainingMeaning | nfs_project/naming_server/naming_server.c:838-840 | what lookups can answer after a deletion, in terms of the records and entries before it |
| Records.SoundDelete | nfs_project/naming_server/naming_server.c:838-963 | where cache and trie agree, the guard of a deletion, executed or refused: no record other than the one it takes, nor that one if it stays cached, names a file that owner or backups lose |
| Records.SelfNamedSpares | nfs_project/naming_server/naming_server.c:838-963 | where records also name their own paths: the path is uncached or cached alone and no other record of the owner or a backup is lost; for a refused deletion, no record of a backup is |
| Records.DeletionsThatBreak | nfs_project/naming_server/naming_server.c:838-840 | a deletion fails the guard that takes another record than that of its path, or only its own while another record of the owner is below it or names the same file |
| Records.DeleteOfAnother | nfs_project/naming_server/naming_server.c:838-840 | a run from the start, a registration, two lookups and a deletion that takes the other record, which fails the guard at its last step |
| Records.DeleteOfDirectory | nfs_project/naming_server/naming_server.c:762-840 | a run from the start, a registration and a deletion of a directory, after which the file below it is recorded and gone |
| Records.DeleteOfCopySource | nfs_project/naming_server/naming_utils.c:272-296 | a run from the start, a registration, a directory copy and a deletion of a copied file, after which the copy's path is still answered with the deleted file |
| Records.ReadFindsFile | nfs_project/naming_server/naming_server.c:1019-1089 | in runs that met all guards, READ sent to the owner names a path on its disk |
| Records.ReadFindsCopy | nfs_project/naming_server/naming_server.c:1036-1089 | and one sent to a backup names a path on the disk of the backup, under the conditions of MirrorConvergence |
| ServerTables.ServerTable.CheckActiveServer | nfs_project/naming_server/naming_server.c:75-82 | the activity of the first entry at the address, false when there is none |
| ServerTables.ServerTable.AddCommand | nfs_project/naming_server/naming_server.c:85-96 | the command is appended to the log of the first entry at the address, nothing else changes |
| ServerTables.ServerTable.Root | nfs_project/naming_server/naming_server.c:998-1017 | the destructive strtok returns the root and leaves the meaning of the table alone |
| ServerTables.ServerTable.HighestTwo | nfs_project/naming_server/naming_server.c:1339-1349 | the loop finds the two highest active entries below the last |
| ServerTables.AppliedClosed | nfs_project/storage_server/file_manager.c:466-514 | commands keep a disk closed under directories above, and a deletion of a path that is not there changes nothing |
| ServerTables.Fleet.Forward | nfs_project/naming_server/naming_server.c:195-272 | the prefixed command goes to the disk of an active backup or to the log of an inactive one |
| ServerTables.Fleet.Locate | nfs_project/naming_server/naming_server.c:1036-1088 | the owner, else the first active backup with its root before the path, else nothing |
| ServerTables.Fleet.ReplayCommands | nfs_project/naming_server/naming_server.c:1128-1178 | all logs at the address are applied in order |
| ServerTables.Fleet.Reconnect | nfs_project/naming_server/naming_server.c:1201-1212 | the entry is active with an empty log, and its disk has the replayed commands |
| NamingServers.NamingServer.HandleCreate | nfs_project/naming_server/naming_server.c:97-352 | memory and disks change as the create step says, and the reply is right in every case |
| NamingServers.NamingServer.HandleDelete | nfs_project/naming_server/naming_server.c:762-965 | the same for deletion, executed or refused by the storage server, pointer aliasing included, with the reply in every case: confirmed, refused, or empty when the disk does not have the path |
| NamingServers.NamingServer.HandleRead | nfs_project/naming_server/naming_server.c:1019-1089 | the answer is the owner or the failover of the model, and only the cache changes |
| NamingServers.NamingServer.LookUp | nfs_project/naming_server/naming_server.c:354-373 | the lookup of all handlers, and the reply of WRITE: the answer of the index, whether or not its server is active; only the cache changes |
| NamingServers.NamingServer.HandleInfo | nfs_project/naming_server/naming_server.c:412-435 | INFO and STREAM: the record when its server is active, and the two replies for an unknown path and an inactive server |
| NamingServers.NamingServer.HandleCopy | nfs_project/naming_server/naming_server.c:436-695 | by what stat says of both paths: the copy step for two directories, the two lookups for a file, nothing otherwise, with the reply in every case, without the transfer on the disks |
| NamingServers.NamingServer.HandleRegister | nfs_project/naming_server/naming_server.c:1192-1384 | registration or return, the strtok loop, backup assignment and the lookups of backup(), as one step of the model |
| NamingServers.NamingServer.HandleLost | nfs_project/naming_server/naming_server.c:1405-1416 | the first entry with the identity becomes inactive, nothing else changes |
| InFlight.StepAccounted | nfs_project/storage_server/file_manager.c:64-167 | from accounted tables a critical section leads to accounted tables exactly when its guard holds |
| InFlight.AccountingExact | nfs_project/storage_server/file_manager.c:23-167 | over any interleaving with error returns, the tables hold one entry for each request in flight and each that failed, at every moment, if and only if no table overflowed and no suffixed write ended |
| InFlight.SectionOutcome | nfs_project/storage_server/file_manager.c:23-167 | what each critical section does to the phase of its request and to the tables of 4026 places |
| InFlight.ArrivalAndFailure | nfs_project/storage_server/file_manager.c:65-167 | a request arrives at the end and an error return marks it, both without touching the tables |
| InFlight.StrippedOutcome | nfs_project/storage_server/file_manager.c:121-128 | the name is cut at the first " --sync" |
| InFlight.TablesOverApproximate | nfs_project/storage_server/file_manager.c:23-63 | in guarded runs no request in flight is missing from its table, occurrences counted |
| InFlight.RemovedMeaning | nfs_project/storage_server/file_manager.c:40-63 | removal takes out the first occurrence only and keeps the order of the rest |
| InFlight.SuffixedWriteLeaks | nfs_project/storage_server/file_manager.c:121-166 | a write with the suffix, alone on the server, ends with its entry still in the table |
| InFlight.FirstCheckExact | nfs_project/storage_server/file_manager.c:65-105 | from accounted tables the first check of a request refuses it exactly when one that it looks for is in flight or failed: a writer of the file for a read, a reader for a write, a writer at or below the path for a deletion |
| InFlight.SecondScanExact | nfs_project/storage_server/file_manager.c:478-487 | and the second scan of a deletion exactly when a reader at or below its path is in flight or failed |
| InFlight.FailureBlocks | nfs_project/storage_server/file_manager.c:78-82 | so over any guarded run, after a request that failed every later check that looks for it refuses |
| InFlight.ReaderMeetsWriter | nfs_project/storage_server/file_manager.c:65-108 | a reader and a writer of one file in flight together: each checked before the other registered |
| InFlight.DeletionMeetsUser | nfs_project/storage_server/file_manager.c:466-487 | a deletion past its scans and a user below its path in flight together: the user registered after the scan that looks for it |
| InFlight.OverlapHappens | nfs_project/storage_server/file_manager.c:64-108 | an interleaving in which a reader and a writer of one file are both in flight |
| InFlight.AtomicIsExclusive | nfs_project/storage_server/file_manager.c:64-108 | were check and registration adjacent for both, no reader and writer of a file would be in flight together |
| Exclusion.StepExclusive | nfs_project/storage_server/file_manager.c:64-108 | from accounted tables without an overlap, a step makes a reader and a writer of one file overlap exactly when one of them registers while the other table holds more for its path than leftovers of failures |
| Exclusion.ExclusionExact | nfs_project/storage_server/file_manager.c:64-167 | over any guarded interleaving, no reader and writer of one file are ever in flight together if and only if nobody registers so |
| Exclusion.StepUndisturbed | nfs_project/storage_server/file_manager.c:466-487 | the same for a deletion past its scans and the users below its path, for one step |
| Exclusion.DeletionExact | nfs_project/storage_server/file_manager.c:466-487 | and over any guarded interleaving |
| Exclusion.DeletionOverlapHappens | nfs_project/storage_server/file_manager.c:466-500 | an interleaving in which a write below the path starts after both scans of a deletion |
| FileManager.PathTable.Add | nfs_project/storage_server/file_manager.c:23-38 | appends, or drops the path when the table is full |
| FileManager.PathTable.Delete | nfs_project/storage_server/file_manager.c:40-63 | the shifting loop removes the first occurrence |
| FileManager.PathTable.HasBelow | nfs_project/storage_server/file_manager.c:456-475 | found exactly when some entry has the path as a prefix |
| FileManager.Manager.Check | nfs_project/storage_server/file_manager.c:65-105 | the first critical section decides as the step of the model |
| FileManager.Manager.Enter | nfs_project/storage_server/file_manager.c:75-108 | registration, or the second scan of a deletion, changes the tables as the step of the model |
| FileManager.Manager.Leave | nfs_project/storage_server/file_manager.c:89-167 | the last critical section removes what the step of the model removes, the stripped name for a write |
| FileManager.WithoutSync | nfs_project/storage_server/file_manager.c:121-128 | the name before the first " --sync" |

## Left out

- Sockets, partial sends, timeouts, failed connections and thread creation: a message to an active server is one reliable step, and losing a server is an event of its own.
- Interleavings of the handlers of the naming server, which share its structures without a lock.
- The three-server and later transfers of `backup()` and the transfers of COPY on the disks: opaque shell commands; they are arbitrary additions to a disk (`Transfer`, `Unpack`).
- Files and directories on a disk are paths in a set: the kind of an existing path, and failures of `mkdir` and `remove`, are not modelled.
- Refusals of forwarded deletions by backups, and what makes an owner refuse: in the cluster a refusal is an event, not computed from the tables of files in use.
- WRITE data and its forwarding to backups: it is not queued for inactive servers, so no convergence holds for contents.
- The wait loop and table of asynchronous write clients: it reads a shared counter and gives no guarantee per client.
- Logging: STREAM of an unknown path follows NULL for its log entry after the reply.
- Sizes of C buffers other than those of the listing, and the length of a log of commands, which the code does not check.
- The client, audio streaming, `play.c`, `testip.c` and `a.c`.
- Listing.ListFiles: requires that the stored paths at or below the argument leave room for the two bytes that the C buffer needs, as the code does not check it.
- Scan.Scanner.ScanDirectory: requires that no directory is met when the table is full; the code then writes past the table.
- NamingServers.NamingServer.HandleRegister: requires at least one path in the registered list, else the code follows the NULL of strtok.
