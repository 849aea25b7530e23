# OSbinLaden: file system, process machine and console, verified

A Dafny model of the parts of this 32-bit teaching kernel that keep state: the FAT32 driver,
the shell's path walks over its tree, the process table with its round-robin scheduler and its
page frames, and the text console. Each part is described twice: once as a step on values
(a volume, a machine, a text), and once as a class whose arrays and fields are updated in place
the way the C code does it, proved against the first description. The properties the repository
is for are then proved of the values, over every input, every reachable state and every run.

`dafny verify dfyconfig.toml` checks the project.

## How it is laid out

The file system, from the bytes up:

- `Words`, `DirectoryLayout`: little-endian words, the 32-byte directory entry, the 64-entry
  table and the 512-word map, each the image of one 2048-byte cluster.
- `ClusterChains`: chains of the map (the "FAT Data Structure" section of Microsoft's FAT32 File
  System Specification, over 512 words), the free list, linking and freeing.
- `DirectoryTables`: packed tables, the scans that stop early, append and swap-with-last removal.
- `Volumes`: what a well-formed volume is. A ghost `Shape` spells out the chain of every first
  cluster and the depth of every folder; `WellFormed` says that chains are acyclic, disjoint and
  end in end-of-file, that every chain is owned by exactly one entry, that every entry's chain
  fits its size, that folders form a tree rooted at cluster 2 under "..", that tables are packed
  and duplicate-free, and that the map on disk is up to date. `ShapeUnique` shows that a volume has only one shape.
- `VolumeGrow`, `VolumePrune`, `VolumeRelink`: the three ways a volume changes (an entry
  appears, a subtree disappears, an entry moves), each shown to keep it well formed.
- `FileWrite`, `FileDelete`, `TreeDelete`, `FileMove`, `MoveExact`, `FileRead`, `Mount`: the
  operations, what they keep, what they undo, and exactly when.
- `Runs`, `Persistence`: whole runs of operations, rebooting, and names. `Counterexamples`
  and `NestedFolders`: concrete inputs on which a plausible claim fails.
- `ChainBuilding`, `TreeWalk`, `Driver`: the driver itself, class `FileSystem`.
- `Paths`: printing a folder's path and resolving a path, as functions and as procedures.

The process machine: `Paging`, `Kernel` (creates, kills, switches and timer interrupts as steps
of a `Machine`), `KernelInvariant`, `KernelRuns`, `KernelHistory`, `KernelFrames`,
`KernelMapping`, and `ProcessManager`, class `Manager`.

The console: `Console`, class `CharFrame`.

## What the code is found not to do

Each of these is a theorem about the code as it is, not an assumption: the exact condition, for
all inputs, and in `Counterexamples` or `NestedFolders` a concrete input that fails.

- A move asks neither whether its target is a folder of the tree, nor whether it is the source
  folder or lies below the moved one, and its search for the source starts at slot 0, so that it
  may find the folder's entry of itself or of its parent. The moves that return 0 and keep the
  volume are exactly those of a content to another folder of the tree that is not below it, those
  of entry 0 where the folder's last content is the same file or folder under the folder's own
  name, and those that write zeros over zeros; renaming in place is not among them
  (`MoveExact.MoveKeepsExactly`).
- `delete_all` leaks clusters unless it removes a file of one cluster or an empty folder
  (`TreeDelete.DeleteAllLeaksUnlessSmall`).
- `read` looks a file up by its eight-byte name and stops at the first match, so a file written
  beside one of the same name and another extension cannot be read back (`FileRead.ReadAfterWrite`).
- The header says that `buffer_size` limits a read (src/header/filesystem/fat32.h:231). A read
  copies no more bytes than that if and only if it is a multiple of 2048 or all the clusters of
  the entry fit in it: otherwise the remaining size steps over zero and wraps
  (`FileRead.ReadStaysInBuffer`).
- The return codes the header lists for read (1 not a file, 2 not enough buffer, 3 not found,
  src/header/filesystem/fat32.h:232) are not those of the code: 0 for a file or a folder, 1 when
  the first entry of the name has another extension, 2 when no entry has the name, never 3
  (`FileRead.ReadCodes`).
- A path is compared with its first component through an eight-bit length, so resolving a
  printed path stops early when a separator stands a multiple of 256 bytes before its end
  (`Paths.ResolvePrinted`).
- Releasing a page frame always marks frame 0 free, so a destroy keeps the frame count exact only
  for a process of no frames, or of one while frame 0 is in use (`KernelFrames.DestroyCountExact`).
- A create asks only where its program begins, not where it ends: one that reaches up to the
  kernel's pages makes them the program's in its directory (`KernelMapping.CreatedMapsKernel`).
- A create whose file cannot be read takes the process count down without having taken it up
  (`KernelRuns.CountFallsBehind`).

## Hypotheses

- Requests name a parent cluster that exists; if it looks like a folder it is one of the tree's.
- `write` has a free slot in the folder and enough free clusters (one more than its own for a
  folder), and memory readable up to the last whole cluster it copies.
- The table an entry is removed from is not full (`get_dir_last_index` then returns 255), and a
  request does not name a zeroed slot.
- Where a move is said to keep something (`FileMove`, `Runs`, `Driver.FileSystem.Move`), its target
  names a folder of the tree as parent, its source is in slot 2 or later, and it goes to another
  folder that is not below the moved one. `MoveExact` and `Driver.FileSystem.CheckAndTransfer` do without these.
- Folder names in the path theorems are non-empty, without separators, not "..", and have no extension.
- Where the kernel is said to stay mapped, programs end below it.
- At most fifteen processes live at once, pids are left, the program's size does not make the
  needed frame count zero, and the running process is not killed.
- Console runs stay inside the 128 by 48 text area.

## Model

| member | source | states |
|---|---|---|
| `DirectoryLayout.ParseTable` | src/header/filesystem/fat32.h:82-98 | a cluster read field by field as 64 packed entries is the one table whose image the cluster is |
| `DirectoryLayout.TableImageInjective` | src/header/filesystem/fat32.h:82-98 | different tables have different cluster images |
| `DirectoryLayout.EntryLayout` | src/header/filesystem/fat32.h:82-98 | the byte every field of an entry begins at, by number, with its cluster number and size little-endian |
| `DirectoryLayout.FatLayout` | src/header/filesystem/fat32.h:58-60 | word i of the map lies little-endian at bytes 4i to 4i+3 of its cluster |
| `DirectoryLayout.DecodeEncodedFat` | src/header/filesystem/fat32.h:58-60 | the cached map, written to its cluster and read back, is the same map |
| `ClusterChains.ChainUnique` | src/header/filesystem/fat32.h:23-28 | a first cluster starts at most one acyclic chain ending in end-of-file |
| `ClusterChains.FreeListFacts` | src/fat32.c:217-224 | the clusters the free scan can hand out, in its order, are the ascending enumeration of the free ones: those from 3 to 511 whose map word is 0 |
| `ClusterChains.LinkTakesFree` | src/fat32.c:263-306 | linking the first k free clusters leaves exactly the rest of the free list, in order |
| `ClusterChains.UnlinkFreesChain` | src/fat32.c:372-386 | freeing a chain adds exactly its clusters to the free ones |
| `ClusterChains.UnlinkLink` | src/fat32.c:372-386 | freeing what was just linked out of free clusters gives back the map |
| `DirectoryTables.HoldsIsExhaustive` | src/fat32.c:243-256 | in a packed table the scan that stops at the first unused slot finds a name exactly when some slot of all 62 has it |
| `DirectoryTables.ScansAre` | src/fat32.c:243-256 | in any table, packed or not, which slot the scan lists under a name and which one it finds free, told from the slots before it |
| `DirectoryTables.AppendPacked` | src/fat32.c:243-291 | appending a new name fills the first unused slot and no other, and keeps used slots a prefix with distinct names and zeros behind |
| `DirectoryTables.RemoveDeletesOne` | src/fat32.c:388-406 | swap-with-last removal deletes exactly one entry from the contents |
| `DirectoryTables.RemoveMovesLast` | src/fat32.c:388-394 | removal moves no entry but the last one, into the freed slot, and zeroes the last one's |
| `DirectoryTables.RemovePacked` | src/fat32.c:388-406 | swap-with-last removal keeps the table packed and duplicate-free |
| `DirectoryTables.RemoveAppend` | src/fat32.c:388-406 | removing the entry just appended gives back the table byte for byte |
| `ShapeUnique.ShapeIsDetermined` | src/fat32.c:137-144 | a volume is well formed with at most one set of chains and folders |
| `FileWrite.WriteTakesLowestFree` | src/fat32.c:258-306 | a successful write takes exactly the k lowest-numbered free clusters, k = max(1, ceil(n/2048)), as one ascending chain, and lowers the free count by k |
| `FileWrite.WriteLinks` | src/fat32.c:292-306 | each cluster of the new chain was free, and its word becomes the next one's number, the last one's 0x0FFFFFFF |
| `FileWrite.WriteCodes` | src/fat32.c:234-313 | a write returns 2 for a parent that is no folder, 1 exactly when the parent lists the name, -1 exactly when no map word from the third on is zero, and otherwise 0; nonzero changes nothing |
| `FileWrite.WriteFolderTables` | src/fat32.c:28-44 | a new folder's own table, slot by slot, and the unfinished one left in the next free cluster, which entry 0 names |
| `FileWrite.WriteAddsOne` | src/fat32.c:270-309 | a successful write adds exactly one entry to the parent, of the requested name and size, a folder exactly when the size is 0, starting at the lowest free cluster; a new folder is empty and names itself and its parent; other folders keep their tables |
| `FileWrite.WriteKeepsWellFormed` | src/fat32.c:234-313 | write keeps the volume well formed, returns 0 exactly when it accepts the request, and changes nothing otherwise |
| `FileWrite.WriteKeepsFiles` | src/fat32.c:234-313 | every other file keeps its chain and every byte of its clusters across a write |
| `FileWrite.WriteKeepsNoLeak` | src/fat32.c:258-309 | after a write every map word in use still belongs to some entry's chain |
| `FileRead.CopyCountIs` | src/fat32.c:137-144 | how many clusters the copying recursion copies, with its 32-bit remaining size: the whole chain unless the size is a multiple of 2048 |
| `FileRead.ReadCodes` | src/fat32.c:154-184 | a read returns -1 for a parent that is no folder, 2 exactly when no entry has the name, 0 exactly when the first entry of the name, file or folder, has the extension, and otherwise 1 |
| `FileRead.ReadStaysInBuffer` | src/fat32.c:137-184 | a successful read copies no more bytes than its size if and only if the size is a multiple of 2048 or all clusters of the entry found fit in it |
| `FileRead.ReadCopies` | src/fat32.c:137-184 | byte k of cluster j of the chain of the entry found is byte 2048 j + k of what a successful read copies, for every cluster it gets to |
| `FileRead.ReadIsPrefix` | src/fat32.c:137-184 | of two reads of one file with different sizes, the shorter's bytes begin the longer's |
| `FileRead.ReadAfterWrite` | src/fat32.c:137-184 | reading back a file just written returns 0 with the written bytes in front if and only if no other entry of the folder has its name; otherwise 1 and no bytes |
| `FileDelete.DeleteKeepsWellFormed` | src/fat32.c:335-394 | delete keeps the volume well formed, returns 0 exactly when it finds a file or an empty folder, and changes nothing otherwise |
| `FileDelete.DeleteCodes` | src/fat32.c:335-394 | a delete returns -1 for a parent that is no folder, 1 exactly when no content slot has the name, 2 exactly when the first that has it is a folder with a content slot in use, and otherwise 0; nonzero changes nothing |
| `FileDelete.DeleteErases` | src/fat32.c:372-394 | every cluster of what is deleted is zeroed and its word cleared; every other cluster but the parent's and the map's, and every other word, stays |
| `FileDelete.DeleteRemovesOne` | src/fat32.c:335-394 | delete takes exactly the named entry from its folder, and every other folder left keeps its table |
| `FileDelete.DeleteKeepsNoLeak` | src/fat32.c:356-386 | delete frees exactly the removed entry's chain, so nothing leaks |
| `FileDelete.DeleteKeepsFiles` | src/fat32.c:335-394 | every other file keeps its chain and bytes across a delete |
| `FileDelete.DeleteUndoesWrite` | src/fat32.c:335-406 | after a successful write that leaves its folder a free slot, delete of the same request returns 0 and gives back the map, its copy on disk and the parent's table byte for byte |
| `TreeDelete.DeleteAllKeepsWellFormed` | src/fat32.c:419-461 | the recursive delete keeps the volume well formed with exactly the subtree's files and folders gone |
| `TreeDelete.DeleteAllCodes` | src/fat32.c:419-461 | the recursive delete returns -1 for a parent that is no folder, 1 exactly when no content slot has the name, and otherwise 0; nonzero changes nothing |
| `TreeDelete.DeleteAllFreesOne` | src/fat32.c:452-461 | in the map the recursive delete clears exactly the word of the removed entry's first cluster |
| `TreeDelete.DeleteAllRemovesOne` | src/fat32.c:419-461 | the recursive delete takes exactly the named entry from its folder, and every folder outside the subtree but the parent keeps its table |
| `TreeDelete.DeleteAllErasesFirsts` | src/fat32.c:452-490 | on disk the recursive delete zeroes exactly the first cluster of every node in the subtree, and writes nothing else but the parent's table and the map |
| `TreeDelete.DeleteAllFrame` | src/fat32.c:419-490 | every chain outside the removed subtree other than the parent's table keeps its clusters and bytes |
| `TreeDelete.DeleteAllLeaksUnlessSmall` | src/fat32.c:452-490 | the recursive delete leaks nothing if and only if it removes a file of one cluster or an empty folder |
| `FileMove.MoveKeepsWellFormed` | src/fat32.c:505-620 | a move to another folder outside the moved one keeps the volume well formed; every nonzero return leaves map and disk unchanged |
| `FileMove.MoveAnswers` | src/fat32.c:505-620 | over the slots of any tables: -1 for a parent that is no folder; 1 exactly when no slot has the source's name; otherwise the first entry of that name goes, under its own name, to the folder the target lists, or, where the target is not listed as a folder, to the target's parent under the target's name, with 2 exactly when that folder lists the name, 3 when it has no slot free, 4 when the entry starts at that folder's cluster, and else 0 with the entry in the first free slot |
| `FileMove.MoveConserves` | src/fat32.c:591-618 | a move leaves the map alone, takes exactly one entry from the source folder and adds exactly it to the destination with its cluster, size and kind, and a moved folder's ".." and own name follow |
| `FileMove.MoveKeepsOtherFolders` | src/fat32.c:591-618 | every third folder keeps its contents across a move |
| `FileMove.MoveKeepsFiles` | src/fat32.c:505-620 | no file, the moved one included, changes a cluster or a byte across a move |
| `FileMove.MoveKeepsNoLeak` | src/fat32.c:505-620 | a move leaks nothing |
| `MoveExact.WithinFolderBreaks` | src/fat32.c:612-618 | after a move of a content inside one folder the volume is well formed with no chains and folders at all: two entries start at the same cluster |
| `MoveExact.IntoItselfBreaks` | src/fat32.c:601-618 | after a move of a folder into a folder below it the volume is not well formed with its files and folders: ".." goes round in a circle |
| `MoveExact.OutsideTreeBreaks` | src/fat32.c:536-618 | after a move of a content to a cluster that is no folder of the tree the volume is not well formed with its files and folders: no entry owns what was moved |
| `MoveExact.ParentEntryBreaks` | src/fat32.c:516-618 | moving what the search finds in slot 1 to another cluster never keeps the files and folders |
| `MoveExact.SelfEntryNeeds` | src/fat32.c:516-618 | moving entry 0 to another cluster keeps the files and folders only if the folder's last content is the same file or folder and repeats the folder's name |
| `MoveExact.SelfEntrySuffices` | src/fat32.c:516-618 | and under that condition it does keep them, to another folder that is not below what is moved |
| `MoveExact.EmptySourceKeeps` | src/fat32.c:516-618 | a move whose source is an unused slot changes nothing when it writes zeros over zeros, and otherwise unpacks a table |
| `MoveExact.MoveKeepsExactly` | src/fat32.c:505-620 | whatever slot the source is found in and whatever cluster the target names, a move that returns 0 leaves a volume well formed with the same files and folders if and only if it sends a content to another folder of the tree not below it, or entry 0 where that comes to the same, or writes zeros over zeros |
| `Counterexamples.FreshIsBlank` | src/fat32.c:72-97 | every new file system is a blank volume, the starting point of the three examples below |
| `Counterexamples.RenamingBreaks` | src/fat32.c:505-620 | on any blank volume, writing a one-byte file and renaming it in place returns 0 and leaves a volume that is well formed with no shape |
| `Counterexamples.SecondExtensionUnreadable` | src/fat32.c:154-184 | on any blank volume, of two files "a" with different extensions the second is written but reading it returns 1 |
| `Counterexamples.TwoClustersLeak` | src/fat32.c:419-461 | on any blank volume, writing a file of two clusters and deleting it with delete_all returns 0 and leaks |
| `Counterexamples.OneByteReadCopiesCluster` | src/fat32.c:137-184 | on any blank volume, reading the one byte of a one-byte file just written copies 2048 bytes |
| `Counterexamples.MoveToFreeClusterBreaks` | src/fat32.c:505-620 | on any blank volume, moving the only file to a free cluster that is zero returns 0 and loses the file |
| `NestedFolders.FolderReads` | src/fat32.c:154-184 | on any blank volume, reading a folder just made returns 0 and copies its table |
| `NestedFolders.MovingEntryZeroBreaks` | src/fat32.c:505-620 | on any blank volume, after making folder a, moving a/a to the root finds entry 0, returns 0 and breaks the volume |
| `NestedFolders.MovingEntryZeroKeeps` | src/fat32.c:505-620 | on any blank volume, after making a and a/a, moving a/a to the root finds entry 0, which is the same entry, and keeps the files and folders |
| `NestedFolders.MovingIntoChildBreaks` | src/fat32.c:505-620 | on any blank volume, after making a and a/b, moving a into a/b returns 0 and breaks the volume |
| `NestedFolders.Nested` | src/fat32.c:276-313 | a blank volume takes 500 folders, each in the one before, and prints the path of the last as all their names |
| `NestedFolders.DeepFolderUnresolved` | src/shell_cmd.c:42-70 | on any blank volume, after making 52 nested folders "aaaa", resolving the printed path of the last one misses it |
| `Counterexamples.DestroyMiscounts` | src/process.c:40-65 | creating and destroying the first process, of one byte, leaves the free count wrong |
| `Counterexamples.UnreadableFirstProcess` | src/process.c:60-127 | a first process whose file cannot be read leaves the process count at -1 |
| `Counterexamples.ProgramUnmapsKernel` | src/process.c:66-131 | a first process that begins in the last page below the kernel and is one byte too long for it is created, with the kernel's first page made a user page of its own |
| `Mount.FormatWellFormed` | src/fat32.c:72-97 | a new file system, on a disk with any contents, is well formed, empty and leaks nothing |
| `Mount.FormatWrites` | src/fat32.c:72-97 | everything a format writes, by value: first block, the three map words and the zeros after them, the root's two entries; clusters from 3 on stay |
| `Mount.RemountRestores` | src/fat32.c:103-111 | mounting the disk of a well-formed, signed volume gives back that volume, cached map included |
| `Runs.RunKeepsWellFormed` | src/fat32.c:234-620 | every run of write, delete, recursive delete and move keeps a volume well formed |
| `Runs.FreshRunWellFormed` | src/fat32.c:72-620 | whatever is done to a newly made file system, it stays well formed |
| `Runs.FreshRunConserves` | src/fat32.c:217-394 | over runs of write, delete and move from a new file system the map words in use are exactly 0, 1, 2 and the chains of the entries, and the free count is 509 less what was written plus what was deleted |
| `Runs.RunKeepsFile` | src/fat32.c:234-620 | a file keeps its clusters and every byte through any run that does not remove it |
| `Runs.WrittenSurvivesRun` | src/fat32.c:137-313 | what was written is what copying the file's chain gives after any run that does not remove it |
| `Runs.ReadAfterRun` | src/fat32.c:137-313 | after any run that does not remove it a file has an entry, and reading it by that entry's folder, name and extension returns 0 and the written bytes if and only if the entry is the first of its name there, otherwise 1 |
| `Persistence.RemountAfterRun` | src/fat32.c:60-111 | a reboot after any run from a new file system finds the volume exactly as the run left it |
| `Persistence.PathsResolveAfterRun` | src/shell_cmd.c:3-70 | after any run whose folders got clean names, the printed path of every folder leads back to it exactly when it does not wrap |
| `Driver.FileSystem.constructor` | src/fat32.c:103-111 | a driver with zeroed state, initialized, holds a well-formed volume: the disk's own when it is signed, a new one otherwise |
| `Driver.FileSystem.CreateFat32` | src/fat32.c:72-97 | signs the disk, reserves the first three clusters and writes map and root |
| `Driver.FileSystem.GetEmptyCluster` | src/fat32.c:217-224 | returns the head of the free list, or the no-cluster word when it is empty |
| `Driver.FileSystem.InitDirectoryTable` | src/fat32.c:28-44 | fills entries 0 and 1 of a new folder; entry 0 names the next free cluster, which also receives the unfinished table |
| `Driver.FileSystem.FindSlot` | src/fat32.c:243-256 | the duplicate check finds a duplicate exactly when the table holds the name, and otherwise the first unused slot |
| `Driver.FileSystem.WriteChain` | src/fat32.c:263-306 | the chain-building loop links the first k free clusters and stores the data in them piece by piece |
| `Driver.FileSystem.Write` | src/fat32.c:234-313 | write in place: return code and volume are those of the description, and the volume stays well formed |
| `Driver.FileSystem.CopyLongCluster` | src/fat32.c:137-144 | the copying recursion fills the buffer with the clusters of the chain it copies |
| `Driver.FileSystem.Read` | src/fat32.c:154-184 | read in place: return code and buffer are those of the description |
| `Driver.FileSystem.FreeChain` | src/fat32.c:372-386 | the freeing loop zeroes and unlinks exactly the chain |
| `Driver.FileSystem.GetDirLastIndex` | src/fat32.c:396-406 | the slot before the first unused one; 255 when the table is full |
| `Driver.FileSystem.IsFolderEmpty` | src/fat32.c:315-325 | true exactly when no content slot is in use |
| `Driver.FileSystem.Delete` | src/fat32.c:335-394 | delete in place: return code and volume are those of the description, and the volume stays well formed |
| `Driver.FileSystem.DeleteAllFolder` | src/fat32.c:463-483 | the recursion terminates and zeroes exactly the first cluster of every node of the subtree |
| `Driver.FileSystem.DeleteAll` | src/fat32.c:419-461 | the recursive delete in place: return code and volume are those of the description, and the volume stays well formed |
| `Driver.FileSystem.ScanTarget` | src/fat32.c:538-565 | the scan of the target's table finds the folder to move into, a file of that name, or the free slot |
| `Driver.FileSystem.ScanFolder` | src/fat32.c:567-583 | the scan of the folder moved into finds a duplicate or the free slot |
| `Driver.FileSystem.CheckAndTransfer` | src/fat32.c:505-620 | any move in place, its source in any slot and its target any cluster: return code and volume are those FileMove.MoveAnswers tells |
| `Driver.FileSystem.Move` | src/fat32.c:505-620 | a move to another folder in place keeps the volume well formed |
| `Paths.ShortStringsEqual` | src/stdlib/string.c:69-72 | strings shorter than 256 bytes compare equal exactly when they are the same |
| `Paths.ResolvePrinted` | src/shell_cmd.c:3-70 | the printed path of any folder, resolved from the root, leads back to the folder if and only if no separator in it stands a multiple of 256 bytes before its end |
| `Paths.ResolvePrintedUnslashed` | src/shell_cmd.c:3-70 | the printed path of any folder but the root, without its final separator, leads to the folder under the same condition |
| `Paths.NameAloneLeads` | src/shell_cmd.c:42-70 | the name of one of a folder's folders, alone, leads to it |
| `Paths.NameLeads` | src/shell_cmd.c:42-70 | one name of a path, alone or before either separator: 0 when no folder from slot 1 on has it, otherwise the first that has it, or on from there with what follows, told from the slots |
| `Paths.DotDotLeadsUp` | src/shell_cmd.c:42-70 | "..", alone or with more behind it, leads up one folder, from the root to the root |
| `Paths.ShortPathsAreWrapFree` | src/stdlib/string.c:47-53 | no path shorter than 256 bytes has such a separator |
| `Paths.PrintedPathsDiffer` | src/shell_cmd.c:3-14 | different folders print different paths, of any length |
| `Paths.PrintResolved` | src/shell_cmd.c:42-70 | a printable path that leads from the root to a folder is how the folder prints if and only if it does not wrap |
| `Paths.GetParent` | src/shell_cmd.c:16-22 | copies the first component of a path into the zeroed buffer |
| `Paths.GetDeepFolderCluster` | src/shell_cmd.c:42-70 | the walk down over a mounted volume returns what the description resolves |
| `Paths.PrintPathFromRoot` | src/shell_cmd.c:3-14 | the walk up over a mounted volume terminates and prints "root/" and the folder's trail |
| `Paging.AllocateUserTakesOne` | src/paging.c:93-125 | with a frame free, an allocation takes the lowest unused frame for a present, writable user page of 4 MiB and nothing else, and keeps the free count exact |
| `Paging.AllocateUserFails` | src/paging.c:93-125 | with no frame counted free an allocation does nothing; with none free after all it maps the page to the frame past the last |
| `Paging.AllocateProcessTakes` | src/process.c:86-93 | mapping a process takes exactly the frames it needs, all unused before, one for each page |
| `Paging.ProcessPagesMapped` | src/process.c:88-93 | of a process's directory exactly the slots of the program's pages and of the stack page become writable user pages of 4 MiB; the others stay |
| `Paging.NewDirectoryMapsKernel` | src/paging.c:140-183 | a new directory has exactly the kernel's five pages present, each with its flags and frame, whatever it held before |
| `Paging.ReleasesFrameZero` | src/paging.c:127-138 | whatever page is released, it is frame 0 that is marked free |
| `Paging.FramesNeededExact` | src/process.c:24-29 | the frame count covers the program and one more frame with less than a frame to spare if and only if the 32-bit sums do not wrap |
| `KernelInvariant.RoomForOneMore` | src/process.c:15-22 | with at most fourteen live processes there is a slot below the last one and a page directory, so a create never meets NULL |
| `KernelInvariant.DirectoriesMatchProcesses` | src/paging.c:140-204 | exactly as many page directories are used as processes are live |
| `KernelInvariant.DestroyNamesOne` | src/process.c:40-65 | destroying a live pid zeroes exactly the slot of that process |
| `KernelInvariant.DestroyReleases` | src/process.c:46-62 | destroying a live process releases exactly its directory, with no page left present in it, and takes one off the count |
| `KernelInvariant.DestroyKeepsInvariant` | src/process.c:40-65 | destroying a process that is not running keeps the invariant, and does nothing when the pid is unknown |
| `KernelInvariant.CreateKeepsInvariant` | src/process.c:66-131 | a create with room for one more is well defined and keeps the invariant, refused, successful or failing to read |
| `KernelInvariant.CreateCodes` | src/process.c:66-131 | the condition of each return code of a create, both ways, with the first three changing nothing |
| `KernelInvariant.UnreadableCreate` | src/process.c:105-127 | a create that cannot read its file leaves the table, the directories in use, the scheduler and CR3 as they were, and uses up a pid |
| `KernelInvariant.CreatedProcess` | src/process.c:95-131 | a successful create enters exactly one new process: fresh pid, the program's name, NEW, the creation context and the frames needed, in a slot that held none; counters move by one and nothing else changes |
| `KernelInvariant.CreatedRegisters` | src/process.c:95-131 | each of the sixteen registers of a new process, by value |
| `KernelInvariant.ChosenIsNearest` | src/scheduler.c:37-56 | the process switched to is the first READY one cyclically after the old slot, or with none READY the first NEW one |
| `KernelInvariant.SwitchTable` | src/scheduler.c:37-56 | the whole table after a switch, slot by slot: which process runs, told from states and cyclic distances, which NEW ones become READY, and that nothing else changes |
| `KernelInvariant.RunningCanSwitch` | src/scheduler.c:37-56 | with a process running the scan always ends, and the timer's search finds the scheduler's slot |
| `KernelInvariant.SwitchKeepsInvariant` | src/scheduler.c:37-56 | after a switch exactly one process runs, in the scheduler's slot, on its own page directory, and no process loses its context, pid or frames |
| `KernelInvariant.TimerKeepsInvariant` | src/timer.c:9-36 | a timer interrupt of a running machine is well defined and keeps the invariant |
| `KernelInvariant.TimerEffect` | src/timer.c:9-36 | every timer interrupt advances the clock by a thousandth of a second, and does nothing else unless more than one process is counted and the tick is a tenth one |
| `KernelRuns.RunKeepsInvariant` | src/process.c:40-131 | over every run of creates, kills of others and timer interrupts exactly one process is RUNNING and it is the scheduler's, pids are distinct, and directories match processes |
| `KernelRuns.CountFallsBehind` | src/process.c:60-127 | the process count falls behind the live processes by exactly one for each create whose file could not be read |
| `KernelRuns.BoundedWaiting` | src/scheduler.c:37-56 | a READY process runs within fourteen switches and a NEW one within twenty-eight, whatever other creates, kills and preemptions interleave |
| `KernelRuns.BoundedWaitingInTicks` | src/timer.c:9-36 | as long as no create fails to read its file, a READY process runs within 140 timer interrupts and a NEW one within 280, every tenth interrupt being a switch |
| `KernelHistory.ContextsAreOwn` | src/timer.c:18-35 | at any point of any run a live process's saved context is its creation context with the thirteen copied registers of its own last preemption |
| `KernelHistory.PreemptionSaves` | src/timer.c:18-35 | a preemption saves each of the thirteen registers of the interrupted process under its own name, keeps cs, ss and eflags, and touches no other context |
| `KernelHistory.RegistersAreOwn` | src/timer.c:18-35 | at any point of any run, register by register: a live process's saved context holds those of its own last preemption, or is its first context |
| `KernelHistory.ResumedContext` | src/scheduler.c:53-55 | whenever a switch resumes a process, that context and its own page directory are what it is resumed with |
| `KernelHistory.ResumedRegisters` | src/scheduler.c:53-55 | whenever a switch resumes a process that was preempted, each copied register is what it was at its own last preemption |
| `KernelFrames.RunKeepsFrames` | src/paging.c:87-125 | over runs of creates whose reads succeed the free count is exact, no frame is mapped by two user pages, and the frames gone are exactly those reserved |
| `KernelFrames.CreatedPages` | src/process.c:86-93 | after a successful create the new directory has as writable user pages of 4 MiB exactly the program's pages and the stack page; every other slot is a new directory's |
| `KernelMapping.CreatedMapsKernel` | src/process.c:66-131 | a successful create's directory maps the kernel's five pages if and only if the program's pages end below the first of them |
| `KernelMapping.RunKeepsKernelMapped` | src/scheduler.c:53-55 | over every run whose programs end below the kernel, every live process's directory maps the kernel, and so does the one in CR3, at every moment |
| `KernelMapping.BootMapsKernel` | src/kernel.c:279-306 | and the machine is so when the first process has been started |
| `KernelFrames.DestroyCountExact` | src/process.c:46-53 | a destroy keeps the free count exact if and only if the process had no frame, or one while frame 0 was in use |
| `KernelFrames.DestroyFrames` | src/process.c:46-53 | a destroy marks frame 0 free if the process had any frame, and adds as many as it had to the count |
| `KernelFrames.BootStarts` | src/kernel.c:279-306 | from the initial state, creating the first process and switching starts it with its creation context and a machine that satisfies every invariant |
| `ProcessManager.Manager.AllocateUserPageFrame` | src/paging.c:93-125 | in place: frame map, count and directory are those of the description |
| `ProcessManager.Manager.CreateNewPageDirectory` | src/paging.c:140-183 | hands out the first unused directory with only kernel pages present, or NULL |
| `ProcessManager.Manager.FreePageDirectory` | src/paging.c:185-204 | marks the named directory unused and clears its present bits; false when there is none |
| `ProcessManager.Manager.ProcessDestroy` | src/process.c:40-65 | destroy in place: the whole state and the result are those of the description |
| `ProcessManager.Manager.ProcessCreate` | src/process.c:66-131 | create in place: the whole state and the return code are those of the description |
| `ProcessManager.Manager.Scan` | src/scheduler.c:43-51 | the scanning loop terminates at the slot described, having made READY exactly the NEW slots it stepped over |
| `ProcessManager.Manager.SwitchToNextProcess` | src/scheduler.c:37-56 | switch in place: the whole state is that of the description, and the context resumed is the chosen slot's |
| `ProcessManager.Manager.TimerIsr` | src/timer.c:9-36 | timer interrupt in place: the whole state is that of the description, and it switches exactly when it preempts |
| `Console.BackspaceUndoes` | src/charframe.c:42-68 | backspace takes back exactly the last key in effect, whether printable, newline or tab |
| `Console.Typed` | src/charframe.c:97-114 | any run of keys from an empty buffer leaves the buffer and position that the keys still in effect would have left |
| `Console.TypedLayout` | src/charframe.c:24-34 | where the text in effect stands after any run of keys: the first character in cell 0, what follows a newline in column 0 of the next row, what follows a tab at the next multiple of four, any other character next to the one before |
| `Console.PressPuts` | src/charframe.c:97-114 | what each key but backspace puts and where the position goes, by number |
| `Console.PressTouches` | src/charframe.c:97-114 | a key changes no cell but the old position's, going forward, or the new one's, going back |
| `Console.CharFrame.HandleBackspace` | src/charframe.c:42-68 | in place: the backward search ends and the buffer is that of the description |
| `Console.CharFrame.KeyHandler` | src/charframe.c:97-114 | in place: buffer and position are those of the description |
| `Console.CharFrame.BufferedDraw` | src/charframe.c:125-132 | after a key and the incremental redraw the screen shows the buffer at every cell but the cursor's |
| `Console.RedrawShows` | src/graphics.c:46-52 | a full redraw shows printable characters as themselves and every other cell empty |
| `Console.CharFrame.Redraw` | src/charframe.c:128-131 | the redraw loop, in either direction, draws exactly the cells from the old position up to the new one |
| `Console.CharFrame.DrawCursor` | src/charframe.c:144-151 | draws a bar in the first half of each second and a space in the other, in the cursor's cell and no other |

## Left out

- Port I/O, disk transfer, interrupt and segment set-up, assembly and pixel drawing: cluster reads and writes are array accesses, CR3 is a field, and switching context is "resume with this context".
- FileDelete.DeleteUndoesWrite: not stated when the write fills the folder's last slot, because removal from a full table writes past it.
- Full tables and full disks where the code does not check: the slot number -1 of write, an exhausted map inside the chain loop, the index 255 of get_dir_last_index.
- Entry 0's cluster number in a new folder: FileWrite.WriteFolderTables says what is written, but no invariant is stated about it; get_final_parent_cluster, which can follow it, is not part of this model.
- A request whose name and extension are all zero bytes, which the scans of read and delete match against an empty slot and then follow cluster 0; for move it is covered by MoveExact.EmptySourceKeeps.
- The second turn of read's outer loop, which a folder of one cluster never takes; read_directory and get_curr_working_dir, which only read.
- Clusters beyond the 512 the map describes, and the bytes of the boot block after its signature.
- Runs.FreshRunConserves: over runs without the recursive delete, which leaks.
- Frame claims over runs with destroys, since frames are not given back; that frame 1, marked free, is the kernel's.
- Kills of the running process and exit by system call; slot 15, which the switch could step past; process_get_processes_info.
- The contents of program memory: a create is given the return code of reading its file.
- The wrap of the 32-bit pid counter and of the signed process count.
- KernelRuns.BoundedWaitingInTicks: not stated for runs in which a create fails to read its file, since the count that decides on preemption is then off; KernelRuns.BoundedWaiting covers them in switches.
- The shell's commands, find, the tokenizer, messages, arrow keys, colours, fonts and the title screen.
- Strings are bytes up to their NUL; the bytes after the literals "." and ".." that create_fat32 copies into the root's names are a parameter.
