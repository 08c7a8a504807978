# A verified model of the FlyFlyUFS disk

FlyFlyUFS keeps a Unix-style file system in one image file, `data.img`: a
superblock, an inode bitmap, a block bitmap, 640 inodes and 2048 data blocks.
Free blocks are chained by grouped linking: the superblock holds a stack of
sixty-four addresses and a leader, entry 0 of the stack links to the next group,
and that group's stack is stored inside its own leader block. Directories hold up
to 160 entries in ten direct blocks, files up to 5120 characters.

Five structures have to agree after every operation: the chain, the free-block
count, the block bitmap, the inode table with its bitmap, and the directory
entries. This project models the operations that change them and proves what they
keep, what they give back, and where the code as written falls short.

## How it is built

The functions on `Disk.State` say what each operation does to memory and image.
The class `FileSystemClass.FileSystem` has the source's fields (superblock, stack
and bitmaps as arrays, the image, the current directory) and its methods carry
the source's loops; each is proved equal to the function that specifies it, or,
where it recurses over the tree, proved against the property it is for. What the
source promises is then proved about the functions.

- `Disk`, `Allocator`: the image, the superblock, `BlockAlloc`, `FreeBlock`,
  `INodeAlloc`, `INodeFree`, and the abstract free list.
- `Lifo`, `SpillIntended`, `FreshChain`, `Inspection`: the chain as a stack, the
  spill branch as written and as intended, the chain `Format` builds, the chain walk.
- `Tree`: the invariant. A certificate (`Cert`) says where each reachable inode
  hangs and which inode owns each block, through which pointer; `TreeInv` says the
  image is the tree the certificate describes, `LeakFree` that nothing else is
  allocated. `Runs.TreeUnique` shows the image determines the certificate.
- `Directories`, `MakeDirectory`, `SlotScan`, `CreateFile`, `Room`, `BadNames`,
  `FileData`, `ReadFile`, `Permissions`: entries, directories and files.
- `Strays`, `UnsetPointer`: the pointer `Create` may leave unassigned. A state with
  such pointers is compared with its clean twin, which has -1 in their place;
  everything reads the same in both.
- `Freeing`, `DeleteFile`, `Subtree`, `DeleteDirectory`: deletion.
- `Paths`, `Resolve`, `Navigation`: path strings, path resolution, `cd`.
- `Outcomes`, `Modes`: when a deletion and a Chmod take effect, and what the
  permission tests compute from the octal digits of a mode.
- `Outline`, `CopyTree`, `MoveTree`, `MoveSettling`: copy and move. An outline
  (`Doc`) is what a subtree says without inode numbers: names, kinds and texts in
  slot order. `CopyPlan` and `Verdicts` tell the answer of a copy or move from the
  outline and the state before the call.
- `Repair`, `SteadyState`, `Runs`: recovery, restart, and runs of operations.
- `Seats`, `Sessions`: a session's user, current directory and name string, and runs
  of its commands. `Here` is the session invariant: the current directory is in the
  tree, the string is its path, and the user may enter it and all above it.
- `Formatting`, `SmallDirs`, `FormatTree`: the formatted disk, node by node.
- `Witnesses`: inputs, each reached from a formatted disk, at which the code falls
  short of its intent.
- `Editor`, `EditorPage`: the editor's text buffer.

An inode's ten direct pointers are a sequence, so contracts that read a directory
say that it has ten. A text handed to `Create` or `WriteFile` is the buffer the
source reads: terminated, and long enough for its last whole block.

Reads that do not meet what was last written (a block seen as another type, an
address outside the regions) yield constants without a value, so every theorem
holds whatever such a read returns.

## Where the code falls short of its intent

Each of these is a theorem below, with the exact condition and an input at which
it fails.

- The spill branch of `FreeBlock` leaves `s_free_addr` alone and does not save the
  old stack. From a group boundary one block is then handed out twice
  (`FreshChain.SpillDoubleAllocates`), or handed out while in use
  (`FreshChain.FreshSpillSoon`); the chain survives a `FreeBlock` exactly away from
  a boundary (`Freeing.FreeChainIff`), and any operation exactly where the count has
  room in its group for what it frees (`Runs.StepSoundIff`). With two assignments added it survives every run
  (`SpillIntended.IntendedRunRefines`).
- `Create` leaves one pointer unassigned when the length is a nonzero multiple of
  512 below 5120 (`UnsetPointer.CreateTreeIff`, `Witnesses.WholeBlockCreated`).
- `Create` and `MakeDir` can let the empty name, or ".." in the root, through
  (`BadNames.MakeDirTreeIff`, `Witnesses.DotDotMade`), `DelFile` and `DeleteDir` the
  empty name (`BadNames.DelFileTreeIff`, `BadNames.DeleteDirBadName`,
  `Witnesses.EmptyNameDeleted`, `Witnesses.EmptyDirDeleted`). A name with a slash
  makes a tree, but a node no path leads to (`Navigation.PathResolvesIff`,
  `Witnesses.SlashMade`).
- `Chmod` can set the type bit, which makes a file a directory
  (`Permissions.ChmodTreeIff`, `Witnesses.FileTurned`), and with the empty name it
  writes wherever a free slot's stale address points (`Permissions.ChmodDiskIff`,
  `Witnesses.EmptyNameChmod`).
- `DeleteDir` leaks the blocks its recursion does not free, such as the second
  block of a file (`DeleteDirectory.DeleteLeaksIff`, `Witnesses.LongFileLeaks`).
- `RepairBlockBitmapFromInodes` rewrites bitmap and count but not the chain, so a
  repair that frees leaked blocks breaks the chain (`Repair.RepairChainIff`,
  `Witnesses.LeakThenRestart`).
- `MoveEntry` takes absolute paths and leaves the current directory alone: moving it,
  or a directory above it, leaves the session on a blank inode, from where `cd /`
  never arrives (`Seats.MoveSeatIff`, `Witnesses.MovedSeatLost`). None of the other
  commands of a session does (`Sessions.SessionKeeps`, `Sessions.AlwaysHome`).
- A path of 28 characters or more overruns `cur_dir_name` (`Navigation.OverrunIff`,
  `Witnesses.LongNameOverruns`).

## Model

| member | source | states |
|---|---|---|
| `Lifo.TopIsTopOf` | src/filesystem_alloc.cpp:39-41 | for every count up to the size of the disk the stack top computed in 32-bit unsigned arithmetic is the plain (n - 1) mod 64 |
| `Lifo.AllocPops` | src/filesystem_alloc.cpp:32-79 | on a disk whose chain, count and bitmap agree, BlockAlloc returns the head of the abstract free list, leaves its tail, marks exactly that block and touches no inode and no block contents |
| `Lifo.AllocEmpty` | src/filesystem_alloc.cpp:34-37 | BlockAlloc returns -1 exactly when no block is free, and then changes nothing |
| `Lifo.FreePushes` | src/filesystem_alloc.cpp:81-133 | away from a group boundary FreeBlock succeeds, puts the block on the front of the free list and keeps chain, count and bitmap in agreement |
| `Lifo.FreeKeepsIff` | src/filesystem_alloc.cpp:93-131 | FreeBlock on an allocated block keeps that agreement if and only if the count before is not a multiple of 64 |
| `Lifo.SpillListsTwice` | src/filesystem_alloc.cpp:104-115 | on a boundary the spill as written lists the old leader first and again 64 places later; with no block free it lists -1 |
| `Lifo.WriteKeeps` | src/filesystem_alloc.cpp:42-64 | writing an allocated block cannot reach the chain: the free list reads the same |
| `Lifo.RunRefines` | src/filesystem_alloc.cpp:32-133 | over every interleaving of allocations, writes to allocated blocks and frees off a boundary, the answers are those of a plain list and the structures still agree |
| `Lifo.NoDoubleAllocation` | src/filesystem_alloc.cpp:32-133 | in such a run no block is handed out twice without being freed in between |
| `SpillIntended.FreePushesAlways` | src/filesystem_alloc.cpp:93-131 | with the two missing assignments (new leader, old stack saved) FreeBlock pushes at every count, 0 and the boundaries included |
| `SpillIntended.IntendedRunRefines` | src/filesystem_alloc.cpp:32-133 | with them every run answers as the plain list does, through draining to 0 and refilling by way of the unsigned wrap, and ends with chain, count and bitmap in agreement on what the plain list ends with |
| `FreshChain.FreshOrder` | src/filesystem_lifecycle.cpp:38-50 | the chain Format builds satisfies the invariant and lists block 64*(k/64) + 63 - k%64 at position k |
| `FreshChain.FreshAllocation` | src/filesystem_lifecycle.cpp:38-50 | without frees the k-th BlockAlloc from a fresh chain returns that block, for all 2048, and the next one returns -1 |
| `FreshChain.AllocTakesHead` | src/filesystem_alloc.cpp:42-64 | on any superblock, sound or not, BlockAlloc returns the head of what the chain lists and leaves its tail |
| `FreshChain.SpillDoubleAllocates` | src/filesystem_alloc.cpp:104-115 | on every boundary with blocks left, after one FreeBlock the next BlockAlloc and the one 64 later return the same address with no free in between |
| `FreshChain.FreshSpill` | src/filesystem_alloc.cpp:104-115 | witness: from a fresh chain, 64 allocations and one free make the leader of the second group go out twice |
| `FreshChain.SpillHandsOutUsed` | src/filesystem_alloc.cpp:104-115 | where the leader block on disk still lists, at its top, a block allocated since, the second BlockAlloc after the spill hands that block out while it is in use |
| `FreshChain.FreshSpillSoon` | src/filesystem_alloc.cpp:104-115 | witness: from a fresh chain, 65 allocations and two frees, and the second allocation after them returns a block in use |
| `INodes.AllocINodeFresh` | src/filesystem_alloc.cpp:5-30 | INodeAlloc returns the lowest inode whose bit was clear, sets that bit only, lowers the count and leaves the chain alone |
| `INodes.FreeINodeFrees` | src/filesystem_alloc.cpp:135-165 | INodeFree clears exactly one set bit, raises the count, blanks the inode and keeps the chain |
| `Freeing.FreeKeepsBits` | src/filesystem_alloc.cpp:81-133 | whatever the state of the chain, FreeBlock on an allocated block succeeds, clears that bit only and keeps count and bitmap in agreement |
| `Freeing.FreesWhatIsUsed` | src/filesystem_alloc.cpp:81-165 | where counts and bitmaps agree FreeBlock succeeds exactly on allocated blocks and INodeFree exactly on allocated inodes; a refusal changes nothing |
| `Freeing.FreeNeverMends` | src/filesystem_alloc.cpp:81-133 | a chain that is broken stays broken under FreeBlock |
| `Freeing.FreeChainIff` | src/filesystem_alloc.cpp:93-131 | after FreeBlock the chain is sound if and only if it was sound and the count was not a multiple of 64 |
| `Freeing.FreeAllReleases` | src/filesystem_file_delete.cpp:57-59 | freeing every named block of a file releases exactly those blocks; the chain survives if and only if no free started on a boundary |
| `Freeing.DiskBits` | src/filesystem_alloc.cpp:123-130 | chain agreement implies that the count is the number of clear bits |
| `Inspection.InspectChain` | src/filesystem_adapter.cpp:969-1057 | on any image, cyclic ones included, the walk ends and meets no leader twice; where the structures agree and a block is free its addresses are exactly the free blocks, each once, and it is not truncated |
| `FileSystemClass.FileSystem.BlockAlloc` | src/filesystem_alloc.cpp:32-79 | memory and image after the method are those of the specified allocation, and so is the returned address |
| `FileSystemClass.FileSystem.FreeBlock` | src/filesystem_alloc.cpp:81-133 | memory and image after the method are those of the specified free, refusals included |
| `FileSystemClass.FileSystem.INodeAlloc` | src/filesystem_alloc.cpp:5-30 | the scan loop finds the first clear bit; state and address are those specified |
| `FileSystemClass.FileSystem.INodeFree` | src/filesystem_alloc.cpp:135-165 | state and answer are those of the specified inode free |
| `Tree.TreeFrame` | src/filesystem_directory_ops.cpp:6-277 | a step that leaves every reachable inode and its blocks alone keeps the whole tree invariant and every view |
| `Tree.OwnedFrame` | src/filesystem_directory_ops.cpp:61-127 | so does a step that writes only inodes outside the tree and blocks nobody owns |
| `Directories.LinkKeeps` | src/filesystem_directory_ops.cpp:81-136 | linking a complete new node into a free slot keeps the tree (unique names, "." and "..", entry counts, single ownership of blocks) and changes one slot of one directory |
| `Directories.UnlinkKeeps` | src/filesystem_directory_ops.cpp:200-212 | emptying the entry of a subtree keeps the tree without that subtree and changes one slot of one directory |
| `Runs.TreeUnique` | src/filesystem_directory_ops.cpp:6-277 | an image determines its certificate: places and owners are the same in any two |
| `SlotScan.ScanDirectory` | src/filesystem_directory_ops.cpp:31-59 | the two nested loops of MakeDir, and those of Create, report a taken name exactly when an entry they compare carries it, and otherwise the first free slot or none |
| `MakeDirectory.MakeDirKeeps` | src/filesystem_directory_ops.cpp:6-144 | for every name and at every exit, exhaustion part-way included, the allocator is sound; a call that fails leaves the tree standing and all inodes and blocks as they were; one that succeeds on a usable name adds one entry for one new directory holding only "." and ".." and leaks nothing |
| `Room.MakeDirSucceedsIff` | src/filesystem_directory_ops.cpp:6-144 | MakeDir succeeds if and only if it refuses nothing (length, permission, name taken, no free slot) and there are an inode and the one or two blocks it needs; it has then taken just those |
| `Outcomes.TakenIff` | src/filesystem_directory_ops.cpp:31-59 | in a tree the scan of MakeDir, and findChild, find a nonempty name exactly if a child has it, or it is "." or, below the root, ".." |
| `BadNames.MakeDirTreeIff` | src/filesystem_directory_ops.cpp:46-58 | a MakeDir that succeeds leaves a tree if and only if the name was not empty and not ".." in the root |
| `FileSystemClass.FileSystem.MakeDir` | src/filesystem_directory_ops.cpp:6-144 | the method with its loops is the specified MakeDir |
| `CreateFile.CreateKeeps` | src/filesystem_file_create.cpp:6-142 | for every name, whatever the unassigned pointer held, and at every exit the allocator is sound; failure leaves the tree standing and every node looking as before; success on a usable name, with no pointer unassigned or -1 in it, adds one file that holds exactly the text and leaks nothing |
| `Room.CreateSucceedsIff` | src/filesystem_file_create.cpp:6-142 | Create succeeds if and only if it refuses nothing and there are an inode and the blocks for entry and text; it has then taken just those |
| `UnsetPointer.CreateReadsBack` | src/filesystem_file_create.cpp:88-127 | whatever the unassigned pointer held, the new file reads back as the text, by readFileContent too, and every node there was looks as before but for the new entry |
| `UnsetPointer.CreateTreeIff` | src/filesystem_file_create.cpp:34-118 | on a disk without leaks a Create that succeeds leaves a tree if and only if the name was usable and the unassigned pointer, if the length leaves one, held -1 |
| `BadNames.CreateBadName` | src/filesystem_file_create.cpp:34-48 | a Create that lets the empty name, or ".." in the root, through leaves no tree |
| `BadNames.DelFileTreeIff` | src/filesystem_file_delete.cpp:6-83 | a DelFile that completes leaves a tree if and only if the name was not empty |
| `BadNames.DeleteDirBadName` | src/filesystem_directory_ops.cpp:190-222 | a DeleteDir that takes a free slot for a directory of at most two entries, whatever inode its stale address names, leaves no tree |
| `FileSystemClass.FileSystem.Create` | src/filesystem_file_create.cpp:6-142 | the method with its loops is the specified Create, for whatever the uninitialised pointers held |
| `FileSystemClass.FileSystem.StoreNewText` | src/filesystem_file_create.cpp:88-119 | the block-by-block loop, the fill with -1 and the block for an empty file yield the specified pointers and blocks |
| `FileData.WriteFileKeeps` | src/filesystem_file_data.cpp:6-32 | growing, shrinking or overwriting keeps allocator and tree and every other node; if every piece found a block the file reads back as the text and nothing leaked; if not, every other node is unchanged and the tree stands |
| `FileData.FillSucceedsIff` | src/filesystem_file_data.cpp:8-17 | every piece finds a block if and only if at least as many blocks are free as pieces lack one |
| `FileData.StoredReads` | src/filesystem_file_data.cpp:23-25 | text stored piece by piece reads back as the text |
| `FileSystemClass.FileSystem.WriteFile` | src/filesystem_file_data.cpp:6-32 | the method with its loop is the specified write |
| `FileData.ReadFileContent` | src/filesystem_adapter.cpp:315-331 | the loop returns the first size characters of the direct blocks, or the empty string when a needed block is absent |
| `FileData.FileTextIsView` | src/filesystem_adapter.cpp:315-331 | on a file of the tree that is its whole text |
| `ReadFile.ShowFile` | src/filesystem_file_read.cpp:6-100 | the nested loops of Cat are the specified search, permission test and printout |
| `ReadFile.PrintedRest` | src/filesystem_file_read.cpp:70-95 | with every needed block present, what is printed from block k on is the rest of the content |
| `ReadFile.CatExact` | src/filesystem_file_read.cpp:27-95 | in a directory of the tree, an entry that leads to a file is shown in full to a user with the read bit and refused to others; an entry that leads to a directory counts as no file |
| `ReadFile.CatFinds` | src/filesystem_file_read.cpp:27-64 | for any name and any state, Cat reports no such file if and only if no slot of an allocated block carries the name and leads to one |
| `ReadFile.CreateThenCat` | src/filesystem_file_read.cpp:6-100 | a file just created is shown back as exactly the text to a user who may read it, and refused to others, whatever the unassigned pointer held |
| `ReadFile.WriteThenRead` | src/filesystem_file_data.cpp:6-32 | after a WriteFile that found its blocks, readFileContent returns exactly the text written, and so does Cat on the file's own name in its directory for a user who may read it |
| `DeleteFile.FindEntry` | src/filesystem_file_delete.cpp:35-77 | the 160-slot search finds the first entry of an allocated block with the name and the wanted kind |
| `DeleteFile.DelFileKeeps` | src/filesystem_file_delete.cpp:6-83 | for every name, DelFile that does not complete changes nothing; one that completes on a name not empty removes exactly one file with exactly its blocks and its inode, keeps the tree and leaks nothing; the chain survives if and only if no free started on a boundary |
| `Outcomes.KindFound` | src/filesystem_file_delete.cpp:35-53 | the search of DelFile and DeleteDir finds the child of the name if it is of the kind looked for, and else nothing |
| `Outcomes.DelFileAnswers` | src/filesystem_file_delete.cpp:6-83 | for a nonempty name DelFile answers too long if and only if it has 28 characters or more, else denied if and only if the directory denies the user the write permission, else done if and only if the directory has a file of that name, and not found if it has none |
| `FileSystemClass.FileSystem.DelFile` | src/filesystem_file_delete.cpp:6-83 | the method with its loops is the specified deletion, refusals included |
| `FileSystemClass.FileSystem.DeleteFileOrDir` | src/filesystem_directory_ops.cpp:228-277 | the recursion terminates and turns exactly the inodes of the subtree, and exactly the blocks it is bound to free, from allocated to free; nothing else changes |
| `FileSystemClass.FileSystem.DeleteDir` | src/filesystem_directory_ops.cpp:146-226 | for a nonempty name it deletes if and only if that has fewer than 28 characters, is not a dot name, the user has the write permission and the directory has a directory of that name; then the subtree is gone, its slot is empty, every other node looks as before, the free-inode count rose by the size of the subtree, and the chain survived exactly if no free started on a boundary; otherwise nothing changes; an empty name takes a free slot if and only if one reads as a directory and the permission holds, and leaves the state `HoleDropped` |
| `FileSystemClass.FileSystem.DeleteCleanDir` | src/filesystem_directory_ops.cpp:146-226 | the same where files outside the directory have stray pointers, said of the clean twins |
| `DeleteDirectory.DeleteLeaksIff` | src/filesystem_directory_ops.cpp:236-272 | DeleteDir frees only blocks of the subtree, and leaves none allocated if and only if, before the call, no node of the subtree with at most two entries had a block but the first, and no other node a block without a real child |
| `DeleteDirectory.SingleBlocksFreed` | src/filesystem_directory_ops.cpp:236-272 | it frees all of them when every node of the subtree has a single block |
| `Subtree.SmallDone` | src/filesystem_directory_ops.cpp:236-241 | a node with at most two entries has nothing below it, and freeing block 0 and the inode is all the deletion does |
| `Paths.SplitPath` | src/filesystem_adapter.cpp:154-162 | the loop returns the nonempty pieces between slashes |
| `Paths.NormalizePath` | src/filesystem_adapter.cpp:124-152 | the loops return the specified normal form |
| `Paths.NormalizeNormal` | src/filesystem_adapter.cpp:124-152 | it has no empty, "." or ".." component and is the join of its components |
| `Paths.NormalizeIdempotent` | src/filesystem_adapter.cpp:124-152 | normalising again, relative to any directory, changes nothing |
| `Paths.NormalizeRelative` | src/filesystem_adapter.cpp:124-152 | relative to a normalised directory, a path is walked component by component from it, or from the root if absolute |
| `Paths.SplitInvertsJoin` | src/filesystem_adapter.cpp:154-162 | splitting the join of clean components gives them back |
| `Paths.DescendantIsPrefix` | src/filesystem_adapter.cpp:293-297 | the string test holds if and only if one list of components properly extends the other |
| `Resolve.FindChildIn` | src/filesystem_adapter.cpp:170-193 | the loops return the inode of the first entry with the name, -1 if there is none or the inode is no directory |
| `Resolve.ResolveEntry` | src/filesystem_adapter.cpp:203-263 | the loop follows the components from the root; every one but the last must be a directory |
| `Resolve.PathFollows` | src/filesystem_adapter.cpp:203-263 | every node of the tree is what following the names on its path leads to |
| `Navigation.PathResolvesIff` | src/filesystem_adapter.cpp:203-263 | the path string of a node resolves to it if and only if no name on the path contains a slash |
| `Navigation.FollowWalks` | src/filesystem_adapter.cpp:203-263 | a path that resolves, "." and ".." among its components or not, leads where walking its components leads |
| `Resolve.FollowIsPath` | src/filesystem_adapter.cpp:203-263 | a normal path that resolves is the path of the node it resolves to |
| `Resolve.PathInjective` | src/filesystem_adapter.cpp:203-263 | different nodes have different paths |
| `Resolve.GuardExact` | src/filesystem_adapter.cpp:293-297 | for resolvable normalised paths other than the root, pathIsDescendant holds if and only if the first node is a strict ancestor of the second |
| `Navigation.EnterFollows` | src/filesystem_path.cpp:28-113 | FindDir enters the node the path step leads to and cur_dir_name stays its path; ".." is never entered from the root |
| `Navigation.ClimbIff` | src/filesystem_adapter.cpp:516-525 | from a directory of the tree the climb to the root arrives if and only if every directory above admits the user |
| `Navigation.CdNormalizes` | src/filesystem_adapter.cpp:512-550 | at every exit the name string is the path of the current directory; without error, and while the string fits its buffer, it equals the normalised path and resolves to the current directory; the buffer is overrun exactly when the answer says so |
| `Navigation.EnterIff` | src/filesystem_path.cpp:30-100 | FindDir enters exactly the directory the component leads to in the tree, where the user may enter it |
| `Navigation.OverrunIff` | src/filesystem_path.cpp:90-94 | the 28 bytes of cur_dir_name are overrun if and only if some path on the way does not fit and the components up to that first one each lead to a directory the user may enter; the walk arrives if and only if all fit and all lead on |
| `Navigation.Unentered` | src/filesystem_path.cpp:30-107 | FindDir reports no entry exactly where the component leads nowhere, and a refusal exactly where it leads to a directory the user may not enter |
| `Navigation.CdStops` | src/filesystem_adapter.cpp:530-547 | a walk that stops short stood before a component that leads nowhere, if it reports no directory, and before one that leads to a directory the user may not enter, if it reports a refusal |
| `Navigation.CdAnswers` | src/filesystem_adapter.cpp:512-550 | `cd` arrives if and only if every path on the way fits the buffer and every component leads to a directory the user may enter, from the root for an absolute path, which also needs every directory above to admit the user; likewise for the overrun |
| `Navigation.CutAtSlash` | src/filesystem_path.cpp:78-89 | the backward scan cuts the string at its last slash |
| `FileSystemClass.FileSystem.FindDir` | src/filesystem_path.cpp:28-113 | address and name change together as specified, or neither changes |
| `FileSystemClass.FileSystem.ChangeDirectory` | src/filesystem_adapter.cpp:512-550 | the method with its loops is the specified sequence of steps, up to a climb that never ends or a name that leaves its buffer |
| `CopyTree.ListDirectoryChildren` | src/filesystem_adapter.cpp:299-313 | the loops return the entries other than "." and ".." in slot order |
| `FileSystemClass.FileSystem.CopyRecursive` | src/filesystem_adapter.cpp:706-775 | terminates; whatever the result, and said of the clean twins, allocator and tree are sound, every old node but the target looks as before and the target has at most one more entry; on success a node new under the target says what the source says and nothing leaked; where no pointer is left unassigned, or it held -1, the states are their twins; its answer is that of the plan on the outline, the place and the free counts before the call |
| `CopyPlan.CopiedIff` | src/filesystem_adapter.cpp:706-775 | the plan succeeds if and only if the name has no slash or backslash and fewer than 28 characters, is not taken, a slot is free, a directory may be made, no name below is refused, every text is one Create can take, and there are inodes for the nodes and blocks for texts, entries and the new entry; it then takes just those |
| `CopyPlan.NameAnswers` | src/filesystem_adapter.cpp:706-719 | Exists is answered exactly for a name that is not refused and is taken, NameTooLong exactly for the name itself, InvalidName for the name itself and else only for a name below |
| `FileSystemClass.FileSystem.CopyFile` | src/filesystem_adapter.cpp:750-774 | the same for a file: the clone has exactly its text |
| `FileSystemClass.FileSystem.CopyDirectory` | src/filesystem_adapter.cpp:726-748 | the same for a directory: the clone has the same names, kinds and texts in the same order |
| `FileSystemClass.FileSystem.CopyEntry` | src/filesystem_adapter.cpp:684-780 | its answer is the verdict on the state before the call; refusals by the checks touch nothing; otherwise as above for the two resolved paths, whatever the unassigned pointers held, and on success the clone hangs under the target with the last component of the source path as its name; user, current directory and its name stay |
| `Verdicts.GuardPasses` | src/filesystem_adapter.cpp:684-704 | the checks pass if and only if source and target are in the tree, the source is not the root, and the target is a directory not inside a source directory |
| `Verdicts.CopySucceedsIff` | src/filesystem_adapter.cpp:684-780 | CopyEntry answers Copied if and only if the checks pass, the target has no child of the name, a free slot and, for a directory, the permission, no name in the source has a slash or backslash and no text a NUL, and there is room |
| `Verdicts.CopyNameAnswers` | src/filesystem_adapter.cpp:706-719 | CopyEntry answers Exists exactly where the checks pass and the target has a child of the name, which has no backslash; NameTooLong never; InvalidName only for a slash or backslash in a name |
| `Strays.StrayReads` | src/filesystem_adapter.cpp:315-331 | a state with stray pointers and its clean twin show the same nodes: kinds, directories, texts |
| `Strays.StrayCreate` | src/filesystem_file_create.cpp:102-108 | a Create among stray pointers, its own included, answers as on the clean twin and leads to the twin of the result, old nodes untouched |
| `Strays.StrayTreeIff` | src/filesystem_file_create.cpp:102-108 | on a disk that leaks nothing, a state with stray pointers is a tree if and only if no node of the tree has one |
| `MoveTree.GuardAdmits` | src/filesystem_adapter.cpp:688-704 | the checks let a copy start only with the target a directory outside the source, and refuse a directory for its place exactly when the target is the source or below it |
| `CopyTree.CopyStep` | src/filesystem_adapter.cpp:743-747 | one more child copied extends the clone by one child at the end and leaves the earlier ones alone |
| `CopyTree.CloneIsFresh` | src/filesystem_adapter.cpp:706-775 | every inode and every block of the clone was free before |
| `FileSystemClass.FileSystem.MoveEntry` | src/filesystem_adapter.cpp:782-823 | its answer is the verdict on the state before the call; "Moved" means the source was cloned under the target and removed, its inodes blank, with the blocks that come free, those left behind and the survival of the chain settled; a refused removal leaves both; a failed copy leaves the source; the source parent is never missing; all whatever the unassigned pointers held |
| `FileSystemClass.FileSystem.RemoveSource` | src/filesystem_adapter.cpp:804-820 | the source is removed if and only if, by the state before the move, the user may delete in its parent: by DeleteDir for a directory, by DelFile for a file |
| `Verdicts.RemovalDecided` | src/filesystem_adapter.cpp:804-820 | once the copy is made DeleteDir or DelFile of the source succeeds if and only if the mode, owner and group its parent had before allow it |
| `Verdicts.MoveSucceedsIff` | src/filesystem_adapter.cpp:782-823 | MoveEntry answers Moved if and only if the copy is made and the user may delete in the source parent, NotRemoved if and only if the copy is made and he may not |
| `MoveTree.MoveDone` | src/filesystem_adapter.cpp:782-823 | after a move the nodes are the old ones outside the source and those of the clone, the source parent lost one entry, the target gained one, every other node looks as before and the clone says what the source said |
| `MoveTree.MovedPaths` | src/filesystem_adapter.cpp:782-823 | after a move the source path resolves to nothing and the same name under the target resolves to the clone |
| `MoveTree.ParentFound` | src/filesystem_adapter.cpp:265-291 | after the copy the parent path still resolves to the source's parent, which is not the target and holds the source under its name |
| `MoveSettling.Settled` | src/filesystem_adapter.cpp:782-823 | after a move exactly those blocks of the source stay allocated that its deletion does not free; a disk without leaks stays one if and only if there are none; the chain survives if and only if no free of the deletion started on a boundary |
| `Repair.RepairExact` | src/filesystem_lifecycle.cpp:161-237 | afterwards a block is marked if and only if an allocated inode names it directly or through its indirect block, and the count is the number of clear bits |
| `Repair.RepairIdempotent` | src/filesystem_lifecycle.cpp:207-236 | a second repair writes nothing |
| `Repair.RepairFreesLeaks` | src/filesystem_lifecycle.cpp:161-237 | with every allocated inode reachable, it frees exactly the leaked blocks and keeps the tree and every view |
| `Repair.RepairIdentity` | src/filesystem_lifecycle.cpp:207-225 | on a disk without leaks it is the identity |
| `Repair.RepairChainIff` | src/filesystem_lifecycle.cpp:215-227 | on any sound allocator, whatever the inodes, the chain still agrees after a repair if and only if the blocks allocated inodes name are the marked ones, or these and the next ones of the current group |
| `Repair.RepairBreaksChain` | src/filesystem_lifecycle.cpp:215-227 | where no allocated inode names a free block, the chain still agrees after a repair if and only if the repair changed nothing, that is if the marked blocks already were those allocated inodes name |
| `Repair.RepairChainTree` | src/filesystem_lifecycle.cpp:215-227 | with every allocated inode reachable, the chain still agrees after a repair if and only if the repair changed nothing, which is so if and only if nothing was leaked |
| `Repair.RestartTransparent` | src/filesystem_lifecycle.cpp:143-159 | from an image that memory agreed with and that leaks nothing, a restart restores the very same state |
| `Repair.RebuildBitmap` | src/filesystem_lifecycle.cpp:162-205 | the scan over the inode table marks exactly the referenced data blocks and counts them |
| `FileSystemClass.FileSystem.RepairBlockBitmapFromInodes` | src/filesystem_lifecycle.cpp:161-237 | memory and image after the method are those of the specified repair, unwritten if nothing changed |
| `FileSystemClass.FileSystem.InitFileSystem` | src/filesystem_lifecycle.cpp:143-159 | whatever memory held, it is what the image holds, repaired |
| `SteadyState.AllocBlockSteady` | src/filesystem_alloc.cpp:65-75 | BlockAlloc keeps image and memory in agreement and -1 above the top of the stack, on any state |
| `SteadyState.FreeBlockSteady` | src/filesystem_alloc.cpp:101-131 | so does FreeBlock, the spill included |
| `SteadyState.INodesSteady` | src/filesystem_alloc.cpp:17-24 | so do INodeAlloc and INodeFree |
| `SteadyState.MakeDirSteady` | src/filesystem_directory_ops.cpp:6-144 | so does MakeDir at every exit |
| `SteadyState.CreateSteady` | src/filesystem_file_create.cpp:6-142 | so does Create |
| `SteadyState.WriteFileSteady` | src/filesystem_file_data.cpp:6-32 | so does WriteFile |
| `SteadyState.DelFileSteady` | src/filesystem_file_delete.cpp:6-83 | so does DelFile |
| `SteadyState.RepairSynced` | src/filesystem_lifecycle.cpp:229-236 | a repair leaves memory and image in agreement |
| `Runs.RunKeeps` | src/filesystem_directory_ops.cpp:6-277 | every run of MakeDir, Create, WriteFile, DelFile and DeleteDir, each refused or on a usable name, each deletion freeing no more blocks than its group of sixty-four has room for, from a sound state ends in a sound state: tree, chain, counts and bitmaps agree |
| `Runs.StepSoundIff` | src/filesystem_directory_ops.cpp:6-277 | after one such step that changes anything there is a sound certificate if and only if, before the call, the count had room in its group for the blocks the file owns (DelFile) or the recursion frees (DeleteDir); no other step needs room |
| `Runs.CompleteRunExact` | src/filesystem_lifecycle.cpp:143-159 | after such a run of completed operations from a disk without leaks the marked blocks and inodes are exactly those the tree owns and reaches, and a restart from the image restores the very same state |
| `Runs.StepFrom` | src/filesystem_directory_ops.cpp:146-226 | what one certificate shows of a step holds for every certificate of the image |
| `Seats.SeatStays` | src/filesystem_adapter.cpp:512-550 | a session whose current directory and all directories above it keep place, name, type, permissions and owner keeps its place: path string, admission and all |
| `Seats.RemovedStays` | src/filesystem_directory_ops.cpp:200-212 | removing a subtree the current directory is not part of leaves everything from it up to the root alone |
| `Seats.MovedStays` | src/filesystem_adapter.cpp:782-823 | so does a move of such a subtree |
| `Seats.ClimbArrives` | src/filesystem_adapter.cpp:516-525 | for a session admitted to its directory and all above, the climb of an absolute `cd` arrives at the root |
| `Seats.CdHere` | src/filesystem_adapter.cpp:512-550 | whatever the path, `cd` ends, and where it ends the session is again in a directory of the tree, under its path, admitted to it and all above |
| `Seats.MoveSeatIff` | src/filesystem_adapter.cpp:782-823 | a move leaves the current directory in the tree if and only if, by the path strings, what moved is neither it nor a directory above it; then the session keeps its place, otherwise it is left on a blank inode |
| `Seats.LostSeatStuck` | src/filesystem_adapter.cpp:516-525 | from a blank inode no absolute `cd` arrives, unless what lies at address 0 reads as an entry ".." |
| `Seats.LostSeatTaken` | src/filesystem_directory_ops.cpp:31-59 | there MakeDir compares names with what lies at address 0 |
| `Sessions.DeedSettles` | src/filesystem_adapter.cpp:512-823 | every login, `cd`, MakeDir, Create, WriteFile, Chmod, copy, deletion in the current directory, and move of something else keeps the disk sound and the session in its place |
| `Sessions.SessionKeeps` | src/filesystem_adapter.cpp:512-823 | so does every run of them |
| `Sessions.AlwaysHome` | src/filesystem_core.cpp:8-11 | on a formatted disk, after any login and any such run, the climb of an absolute `cd` arrives at the root and no `cd` hangs |
| `FileSystemClass.FileSystem.BuildChain` | src/filesystem_lifecycle.cpp:36-50 | the two nested loops write the groups and leave the first in the superblock stack |
| `FileSystemClass.FileSystem.FormatRoot` | src/filesystem_lifecycle.cpp:7-103 | a formatted disk with its root is sound and without leaks, its only node is the root, and that holds only "." |
| `Formatting.RootSound` | src/filesystem_lifecycle.cpp:69-103 | an empty root on a fresh chain: tree, chain, counts and bitmaps agree and nothing is leaked |
| `FileSystemClass.FileSystem.Format` | src/filesystem_lifecycle.cpp:7-141 | Format succeeds for every user and leaves a sound disk without leaks whose nodes are exactly the root, home, home/root, etc and the three account files, with their entries, texts and modes |
| `Permissions.ChmodKeeps` | src/filesystem_permissions.cpp:6-61 | for every name and mode Chmod changes nothing or the mode of the one inode it finds; for a nonempty name that is the child of that name, and unless it makes a file a directory tree and allocator stay sound and every other node looks as before |
| `Outcomes.ChmodActs` | src/filesystem_permissions.cpp:6-61 | Chmod of a child acts for its owner and for root and for nobody else; without a child of the name it does nothing |
| `Permissions.PermissionsReplaced` | src/filesystem_permissions.cpp:56 | a mode argument below 512 replaces the nine permission bits and nothing else |
| `Permissions.ChmodTreeIff` | src/filesystem_permissions.cpp:31-61 | a Chmod that changes anything leaves a tree if and only if it does not set the type bit of a file of the tree |
| `Permissions.ChmodDiskIff` | src/filesystem_permissions.cpp:31-61 | it leaves the allocator sound if and only if the address of the entry it found is an inode address, which for a nonempty name it is |
| `Modes.NewModes` | include/const.h:5-10 | MakeDir makes directories 0755 and Create files 0664 |
| `Modes.EnterDigits` | src/filesystem_path.cpp:54-71 | FindDir admits root, and others where the octal digit of the mode that applies, the one of owner, group or others, is at least 4 |
| `Modes.MakeDirDigits` | src/filesystem_directory_ops.cpp:16-29 | MakeDir asks for the same digit of the directory |
| `Modes.DelFileDigits` | src/filesystem_file_delete.cpp:20-32 | DelFile asks for bit 1 of the digit and takes root for the owner |
| `Modes.DeleteDirDigits` | src/filesystem_directory_ops.cpp:165-177 | DeleteDir asks for bit 1, lets root pass, and compares the user with the group |
| `Modes.CatDigits` | src/filesystem_file_read.cpp:20-27 | Cat asks for bit 2 of the file with owner and group of the directory, without an exception for root |
| `Modes.EnterAnswers` | src/filesystem_path.cpp:30-107 | where a component leads to a directory of the tree, FindDir enters it for root and for those whose octal digit is at least 4, and refuses the others |
| `Modes.ChmodThenEnter` | src/filesystem_permissions.cpp:50-60 | after the owner or root has set the mode of a directory, `cd` into it admits root and exactly those the new digits admit |
| `Modes.PrivateDirectory` | src/filesystem_permissions.cpp:50-60 | after the owner sets 0700 the owner enters and everyone else but root is refused |
| `FileSystemClass.FileSystem.Chmod` | src/filesystem_permissions.cpp:6-61 | the method with its repeated search is the specified Chmod |
| `Witnesses.DotDotMade` | src/filesystem_directory_ops.cpp:46-58 | witness: in a formatted root MakeDir makes ".." and no tree is left |
| `Witnesses.EmptyNameDeleted` | src/filesystem_file_delete.cpp:35-77 | witness: where what lies at address 0 does not read as a directory, DelFile of the empty name in a formatted root completes and no tree is left |
| `Witnesses.EmptyDirDeleted` | src/filesystem_directory_ops.cpp:190-222 | witness: where what lies at address 0 reads as a directory of at most two entries, DeleteDir of the empty name in a formatted root takes it and no tree is left |
| `Witnesses.FileTurned` | src/filesystem_permissions.cpp:56 | witness: in a formatted root Create makes a file and Chmod with mode 512 makes it a directory, and no tree is left |
| `Witnesses.EmptyNameChmod` | src/filesystem_permissions.cpp:31-61 | witness: in a formatted root Chmod of the empty name writes at address 0 |
| `Witnesses.WholeBlockCreated` | src/filesystem_file_create.cpp:102-108 | witness: in a formatted root a Create of one whole block, with 0 in the unassigned pointer, succeeds and no tree is left |
| `Witnesses.LongFileReached` | src/filesystem_directory_ops.cpp:236-272 | MakeDir and Create lead from a formatted root to a directory holding a file of two blocks |
| `Witnesses.LongFileLeaks` | src/filesystem_directory_ops.cpp:236-272 | witness: whatever DeleteDir leaves of a directory holding a file of two blocks, a block nobody owns stays marked |
| `Witnesses.LeakThenRestart` | src/filesystem_lifecycle.cpp:215-227 | witness: such a deletion exists, the chain survives it, and the restart after it breaks the chain |
| `Witnesses.NestedReached` | src/filesystem_directory_ops.cpp:6-144 | three MakeDirs lead from a formatted root to "/a/b" and "/t" |
| `Witnesses.NestedMoves` | src/filesystem_adapter.cpp:782-823 | there CopyEntry of "/a" to "/t" answers Copied and MoveEntry Moved |
| `Witnesses.MovedSeatLost` | src/filesystem_adapter.cpp:782-823 | witness: a session stands in "/a/b" and "/a" is moved under "/t"; it is left on a blank inode that no tree holds, and unless what lies at address 0 reads as an entry "..", `cd /` never arrives |
| `Witnesses.SlashMade` | src/filesystem_adapter.cpp:555-566 | witness: MakeDir makes "a/b" in a formatted root, and no path string resolves to it |
| `Witnesses.LongNameOverruns` | src/filesystem_path.cpp:90-94 | witness: in a formatted root, a directory with a name of 27 characters is made, and `cd` into it overruns the buffer |
| `Editor.PrintParse` | src/editor.cpp:101-135 | saving what was loaded gives the text with tabs expanded and a final newline where it had none |
| `Editor.PrintParseIdentity` | src/editor.cpp:101-135 | it is the identity on texts without tabs that end in a newline |
| `Editor.PrintParseIdempotent` | src/editor.cpp:203-222 | loading and saving a second time changes nothing |
| `Editor.ParsePrint` | src/editor.cpp:203-222 | saved lines load back as the same lines |
| `EditorPage.Page.constructor` | src/editor.cpp:101-135 | the loops load a text of at most 500 lines as the specified lines, each in a buffer of its own |
| `EditorPage.Page.SaveToBuf` | src/editor.cpp:203-222 | the loops write the lines, each with its newline |
| `EditorPage.Page.InsertLine` | src/editor.cpp:146-157 | an empty line is inserted, and no two live lines share a buffer |
| `EditorPage.Page.RemoveLine` | src/editor.cpp:159-170 | one line is removed unless it is the only one, and no two live lines share a buffer |
| `EditorPage.Page.Expand` | src/editor.cpp:172-182 | twice the room, the same lines |
| `EditorPage.Page.InsertCharAt` | src/editor.cpp:62-68 | one line gains the character at the place, the others keep theirs |
| `EditorPage.Page.RemoveCharAt` | src/editor.cpp:83-88 | one line loses the character at the place, the others keep theirs |
| `EditorPage.InsertChar` | src/editor.cpp:62-77 | the shifted array reads as the insertion, growing first where needed |

## Left out

- CopyRecursive: one value of the uninitialised stack memory is taken for the whole copy, and so for CopyEntry and MoveEntry.
- DeleteDir: an empty name must not find a free slot whose stale address reads as a directory of more than two entries; the source then recurses into whatever lies there.
- DeleteCleanDir: the same for an empty name.
- CatExact: the empty name, which finds a free slot and prints what its stale address reads as; `CatFinds` says when it finds one.
- Chmod: negative modes, which the source's command line can produce from characters that are no digits.
- EmptyNameChmod: at address 0 lies the superblock, which the typed disk keeps apart; only the write itself is modelled.
- RunKeeps: runs in which a `FreeBlock` starts on a group boundary are excluded, because the spill breaks the chain (`Runs.StepSoundIff`); so they are from CompleteRunExact and SessionKeeps.
- SessionKeeps: commands on the bad names of `BadNames`, and copies that leave a pointer unassigned, are excluded, because no tree is left; for a move the room in the group is that of the count after its copy.
- Login: the walk of `check` through etc and the password are left out; it is taken to end at the root, from where its last two steps are `cd`s.
- FreeINode: an address outside the inode region is refused, and so it is by INodeFree; the source indexes its inode bitmap out of bounds there (address 0 gives index -92). `EmptyNameDeleted`, `EmptyDirDeleted`, `DelFileTreeIff` and `DeleteDirBadName` rest on the refusal.
- INodeFree: see FreeINode.
- Format: the line with the first user's numbers is a parameter.
- FreeBlock: an address outside the data region is refused; the source reads its bitmap out of bounds there.
- BlockAlloc: after the last block is allocated the stack is whatever a read at -1 yields, an arbitrary value here.
- ScanDirectory: one method for the scans of MakeDir and Create, which differ in one comparison.
- CdNormalizes: what the source does once `cur_dir_name` is overrun.
- ChangeDirectory: components of more than 99 characters are cut by the source; no directory has such a name.
- EditorPage.Page.constructor: texts of more than 500 lines are excluded; the source writes past its array of lines.
- Files over 5120 bytes and indirect blocks: no operation writes an indirect block; only the repair reads one.
- The byte layout of superblock, inodes and entries, `inode_id`, and the buffering of the image file: the disk is typed and its regions are disjoint.
- `Create` empties the caller's text buffer when the name exists; the buffer is a value here.
- Messages: the error texts become result values, and what is printed beside them is dropped.
- Permission checks: they are modelled as the source writes them, including their differences between operations, but mode strings are not.
- User accounts, listings with their counters, the WebSocket server, timing statistics, the frontend and the ncurses screen.
- Dynamic memory of the editor: `delete` and destructors.
