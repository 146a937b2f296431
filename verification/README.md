# xv6 projects in Dafny

Models of the hard parts of a set of operating system projects around xv6, with proofs:

- the file system (`FsLayout`, `FsStore`, `FsOwner`, `FileSystem`, `FsNames`, `FsContents`, `FsDirectory`,
  `FsPath`, `FsNamex`): bitmap allocator, block map, truncation, byte reads and writes, directories and paths. An inode is
  a byte sequence and a directory a finite map, under one invariant that matches marked blocks and
  slots one to one and keeps free blocks zero;
- the image checker (`FsImage`, `FsGood`, `XcheckMarks`, `XcheckWalk`, `Xcheck`), which accepts exactly the good
  images, and the image builder (`MkfsRecord`, `MkfsStore`, `MkfsAppend`, `MkfsTree`, `MkfsGood`,
  `MkfsKernel`, `MkfsHost`, `Mkfs`), all of whose images are good, mirror the host tree and satisfy the invariant of
  the kernel, whose path walk finds in them what the host has;
- the heap allocator (`HeapList`, `Umalloc`): the circular free list, in units of a header;
- address spaces with shared pages (`VmMem`, `VmSteps`, `Vm`, `VmUser`, `VmCopyout`, `VmProc`, `VmExec`): every physical page
  has one use at a time, and the pool is conserved;
- the map-reduce runtime (`MrOrder`, `MrTable`, `MrResult`, `MapReduce`, `MrThreads`): what the reducers see does not
  depend on the scheduling;
- the shell parser (`ShellSyntax`, `ShellGrammar`, `ShellRead`, `ShellParsed`, `ShellPrint`, `ShellParser`): it accepts
  exactly the lines of the syntax, each with its meaning, parsing undoes printing, and words survive their
  termination in place;
- the process table (`ProcTable`), buffer cache (`BufferCache`), pipe (`Pipe`), multi-level feedback queue
  (`Mlfq`, `MlfqRuns`), ticket lock (`TicketLock`) and expression matcher (`Grep`).

Code that changes state is modelled by classes and methods over arrays and fields; each method is
proved against functions and predicates on values, and what the code is for is proved about those.
Code that runs under a lock is one atomic method up to the point where it returns or sleeps;
threads that interleave more finely (map-reduce, ticket lock) are state machines over their steps.
Parts of long C loops are methods of their own. Words, counters and hashes have their C widths
where they can wrap: block addresses, pipe counters, tickets, the string hash, system call
arguments.

What the code demands of its callers is in `requires`: enough free blocks for a read or write that
allocates, at most 199 inodes for the image builder, heap requests without overflow, a heap that
does not shrink below its first page. Where the code falls short, the exact condition is proved:
the block allocator leaves the image exactly when no block is free, making the kernel part of an
address space with 1 to 12 free pages loses them, a pipe writer that gives up in the middle leaves
readers asleep, the directories of an image are in order for the kernel exactly when the names in
the host tree stay different after the cut to 14 bytes, exec leaves the gap below the stack exactly
when the image of the program does and stops the kernel when that image reaches into the page of
the stack, and a process at the top level of the feedback queue is sure to run
soon with at most 20 other processes, while 21 can keep it waiting for ever.

`dafny verify dfyconfig.toml` checks everything.

## Model

| member | source | states |
|---|---|---|
| FileSystem.Fs.Balloc | p5/kernel/fs.c:53-76 | marks and returns the first block whose bit is clear, in the order of the bitmap; changes no other bit and no other block; none only if every scanned bit is set |
| FileSystem.FirstClearInImage | p5/kernel/fs.c:62-74 | the scan does not look at the image size: its result lies in the image exactly when a block of the image is free |
| FileSystem.AllocatorLeavesImage | p5/kernel/fs.c:60-74 | a full image with its super block and a root directory, on which the allocator hands out the block behind the end, and whose root needs a block to grow |
| FileSystem.Fs.Readsb | p5/kernel/fs.c:27-36 | the size and the number of inodes that block 1 states are those of the device |
| FileSystem.Fs.ScanBlock | p5/kernel/fs.c:62-72 | one bitmap block: its first clear bit is set, unless all are |
| FileSystem.Fs.Bfree | p5/kernel/fs.c:79-97 | the block becomes zero and its bit clear, nothing else changes; never called on a clear bit |
| FsStore.WithMarkAt | p5/kernel/fs.c:65-67 | setting or clearing one bitmap bit changes that bit and no other |
| FsOwner.AllocAddr | p5/kernel/fs.c:326-335 | giving a free block to a direct or indirect slot keeps the ownership matching and every byte of every inode: a new indirect block lists nothing because free blocks are zero |
| FsOwner.AllocEntry | p5/kernel/fs.c:338-341 | the same for an entry of the indirect block |
| FsOwner.FreeEntry | p5/kernel/fs.c:369-372 | freeing an entry of the indirect block keeps the matching, with the entries before it dead |
| FsOwner.FreeIndirect | p5/kernel/fs.c:374-375 | after all entries the indirect block itself can be freed |
| FileSystem.Fs.BallocAddr | p5/kernel/fs.c:326-335 | a direct or indirect slot gets the first free block; no byte and no other slot changes |
| FileSystem.Fs.BallocEntry | p5/kernel/fs.c:338-341 | an entry of the indirect block gets the first free block; no byte and no other slot changes |
| FileSystem.Fs.TruncDirect | p5/kernel/fs.c:359-364 | one direct block is freed and its address cleared |
| FileSystem.Fs.TruncIndirect | p5/kernel/fs.c:366-376 | all blocks of the indirect block, and then it, are freed |
| FsOwner.DataWrite | p5/kernel/fs.c:441-442 | writing a data block changes the bytes of the one file block that owns it |
| FileSystem.Fs.Bmap | p5/kernel/fs.c:319-347 | the block of a file block, allocated with its indirect block when missing; no byte of any inode changes, no address moves, and exactly the missing blocks leave the free set |
| FileSystem.Fs.ReadChunk | p5/kernel/fs.c:412-415 | the bytes of one block that belong to the transfer |
| FileSystem.Fs.WriteChunk | p5/kernel/fs.c:439-443 | one block gets its bytes of the source, and no other byte changes |
| FileSystem.Fs.Readi | p5/kernel/fs.c:394-418 | all n bytes or as many as the file has from off on, or -1 when the offset is past the end or off + n wraps; also across direct and indirect blocks and holes |
| FileSystem.Fs.ReadLoop | p5/kernel/fs.c:411-416 | the bytes asked for, and just the blocks missing in holes are allocated |
| FileSystem.Fs.Writei | p5/kernel/fs.c:421-451 | all of the source, or as much as fits below the largest file size, becomes the bytes from off on, the size grows if needed, all other inodes are untouched, and the free blocks shrink by exactly the need |
| FsContents.WrittenContents | p5/kernel/fs.c:438-449 | on byte sequences: old[..off] + src + the old rest |
| FsContents.WrittenOthers | p5/kernel/fs.c:438-449 | the contents of every other inode stay |
| FsContents.ExtendedContents | p5/kernel/fs.c:412-415 | mapping blocks while reading leaves the contents of every inode alone |
| FileSystem.Fs.Itrunc | p5/kernel/fs.c:352-380 | the inode is empty, exactly its blocks become free (so no block is freed twice), and no byte of another inode changes |
| FsNames.Namecmp | p5/kernel/fs.c:455-459 | zero exactly when both stand for the same name of at most 14 bytes |
| FsDirectory.Dirlookup | p5/kernel/fs.c:464-493 | finds a name exactly when the directory map has it, with its inode number and the offset of an entry below the size, although whole blocks are scanned |
| FsDirectory.FindFree | p5/kernel/fs.c:509-515 | the offset of the first entry not in use, or the size |
| FsDirectory.AddEntry | p5/kernel/fs.c:517-520 | writes the entry there: one binding more, or a panic when the file is full |
| FsNames.Strncpy | p5/kernel/fs.c:517-517 | copies the name and fills up with zeros |
| FsDirectory.Dirlink | p5/kernel/fs.c:496-523 | adds exactly the binding, refuses a bound name, keeps names unique, and stops exactly when the name is new and the largest directory is full |
| FsContents.LinkedDir | p5/kernel/fs.c:517-520 | writing an entry with a new name over an unused one inserts one binding |
| FsContents.DirBindings | p5/kernel/fs.c:474-491 | the map of a directory has just the names and numbers of its entries in use |
| FsDirectory.EraseEntry | p5/kernel/sysfile.c:177-200 | removes exactly the binding of the name; "." and ".." and unbound names are refused |
| FsPath.Skipelem | p5/kernel/fs.c:539-562 | takes the first element off the path: the rest has just the other elements and no leading slash, and the name buffer stands for the element |
| FsPath.CopyName | p5/kernel/fs.c:554-559 | the buffer stands for the first 14 bytes of the element |
| FsPath.ElementsOfJoin | p5/kernel/fs.c:533-537 | splitting a path undoes joining any elements |
| FsPath.ElementsSplit | p5/kernel/fs.c:539-562 | a slash splits a path: slashes in front, behind or in a row only separate, and a run without a slash is one element |
| FsNamex.Namex | p5/kernel/fs.c:567-600 | a path leads to the inode that following the directory maps over its elements leads to, from the root if the path starts with a slash and from the current directory otherwise, or to nothing at the first element that is missing or not in a directory; for the parent, to the directory of the last element, which is left in the name buffer; nothing that can be read changes |
| FsNamex.Namei | p5/kernel/fs.c:602-607 | the inode of a path: from the root or from the current directory |
| FsNamex.WalkFromParent | p5/kernel/fs.c:582-594 | the walk for the parent ends at the directory in which the last name leads on |
| FsNamex.Lookup | p5/kernel/fs.c:588-591 | one element: the map of the directory, although holes in it get blocks |
| FsNamex.WalkThen | p5/kernel/fs.c:577-594 | following a path and then another is following both in one |
| FsNamex.SameDirs | p5/kernel/fs.c:484-492 | blocks given to holes change no directory |
| Xcheck.Checker.constructor | p5/xcheck.c:295-310 | the arrays start empty, and the bitmap array holds the bits of the image |
| Xcheck.Checker.ReadBitmap | p5/xcheck.c:303-310 | each mark is the bit of its block, unpacked from the bytes of the bitmap one after the other |
| Xcheck.Checker.CheckAddr | p5/xcheck.c:72-90 | accepts an address exactly when it is in range, marked, and not used before, and then counts it as used; a refusal names the conflict |
| Xcheck.Checker.CheckRefs | p5/xcheck.c:98-116 | all 141 addresses of an inode are entered, or the image is not good |
| Xcheck.Checker.DirTraverse | p5/xcheck.c:119-193 | explores everything below an entry and leaves the marks of exactly that; a refusal means that the image is not good; the directories not yet visited decrease |
| Xcheck.Checker.WalkDir | p5/xcheck.c:134-190 | the walk over the 12 direct and 128 indirect blocks of a directory |
| Xcheck.Checker.WalkBlock | p5/xcheck.c:145-163 | the walk over the 32 entries of a directory block, with the two dot entries noticed |
| XcheckMarks.Twice | p5/xcheck.c:127-139 | entering an inode that has been entered means a directory, or blocks, used twice |
| XcheckMarks.BadRef | p5/xcheck.c:72-90 | an address out of range, not marked, or used already contradicts a good image |
| XcheckWalk.VisitedReachable | p5/xcheck.c:126-141 | after the walk the inodes visited are those that can be reached from the root |
| XcheckWalk.RefcntIsIns | p5/xcheck.c:126-126 | and the reference count of each is the number of entries that lead to it |
| XcheckWalk.UsageIsOwned | p5/xcheck.c:88-113 | and the blocks counted as used are those that reachable inodes own |
| XcheckWalk.DoneTree | p5/xcheck.c:134-163 | and the directories form a tree in which ".." names the parent |
| Xcheck.Checker.Check | p5/xcheck.c:285-344 | reports no error if and only if the image is good: tree, blocks used once and marked, link counts, and no marked block without owner |
| FsGood.GoodMatching | p5/xcheck.c:340-344 | in a good image a data block is marked if and only if an inode that can be reached has it, and then just one has it, at one place |
| FsGood.ClimbsToRoot | p5/xcheck.c:145-163 | in a good image ".." leads from every directory up to the root, in as many steps as the path down has, and there is no other way up |
| FsGood.LinksCounted | p5/xcheck.c:335-337 | in a good image the link counts are, together, as many as there are directory entries |
| MkfsRecord.WriteRecord | p5/tools/mkfs.c:251-263 | writing an inode record changes that record of the block and no other |
| MkfsAppend.Builder.Wsect | p5/tools/mkfs.c:232-243 | one block of the image changes |
| MkfsAppend.Builder.Winode | p5/tools/mkfs.c:251-263 | the record on disk is the inode, and no byte or slot of any inode changes |
| MkfsAppend.Builder.Rinode | p5/tools/mkfs.c:265-276 | the record on disk |
| MkfsAppend.RecordsSay | p5/tools/mkfs.c:265-276 | the inodes that the records of the inode table say are those that the builder keeps |
| MkfsAppend.Builder.constructor | p5/tools/mkfs.c:66-95 | a zero image with its super block, first free block 29, first free inode 1 |
| MkfsAppend.Builder.MapBlock | p5/tools/mkfs.c:337-359 | the block of a file block, handed out in order when missing; no byte changes, and the blocks taken are exactly the fresh ones; fails only when the image is full |
| MkfsAppend.Builder.TakeNext | p5/tools/mkfs.c:340-350 | the next block goes to an address of the inode |
| MkfsAppend.Builder.MapEntry | p5/tools/mkfs.c:352-358 | the block that the indirect block lists, handed out when missing |
| MkfsAppend.Builder.AppendPart | p5/tools/mkfs.c:337-363 | the bytes for one block are spliced in |
| MkfsAppend.Builder.Iappend | p5/tools/mkfs.c:323-370 | appends the bytes to the inode and changes nothing else; succeeds exactly when the file stays in bounds and the blocks fit |
| MkfsStore.TakeEntry | p5/tools/mkfs.c:353-357 | the next block becomes an entry of the indirect block and is owned by that one slot |
| MkfsAppend.Builder.Balloc | p5/tools/mkfs.c:305-319 | exactly the first bits of the bitmap are set |
| MkfsAppend.Builder.Bitmap | p5/tools/mkfs.c:313-316 | a block with exactly the first bits set |
| Mkfs.Ialloc | p5/tools/mkfs.c:291-303 | the next number, with a fresh record of one link |
| Mkfs.Dirent | p5/tools/mkfs.c:177-178 | the 16 bytes of an entry: number and padded name |
| Mkfs.AddFile | p5/tools/mkfs.c:167-174 | the inode holds all that reading the host file yields; succeeds exactly when it fits |
| Mkfs.AddDots | p5/tools/mkfs.c:110-118 | the directory holds "." and ".." |
| Mkfs.AddEntry | p5/tools/mkfs.c:177-179 | the directory gets one entry more, cut to 14 bytes |
| Mkfs.AddChild | p5/tools/mkfs.c:159-174 | an inode for one host entry, with all below it |
| Mkfs.AddOne | p5/tools/mkfs.c:147-179 | one host entry is copied and entered into its directory |
| Mkfs.AddEntries | p5/tools/mkfs.c:135-181 | the loop over the listing; dot entries of the host are skipped |
| Mkfs.CloseDir | p5/tools/mkfs.c:183-188 | the size of the directory is rounded up to blocks, nothing else changes |
| Mkfs.AddDir | p5/tools/mkfs.c:97-190 | a directory and all below it mirror the host listing, inodes are numbered in order, nothing that was there changes; succeeds exactly when all fits |
| Mkfs.Append | p5/tools/mkfs.c:323-370 | bytes appended to an inode that is being filled |
| Mkfs.BuildTree | p5/tools/mkfs.c:194-224 | the root and all below it, before the bitmap is written |
| Mkfs.Build | p5/tools/mkfs.c:194-230 | the program: succeeds if and only if all files are in bounds and all blocks fit; the image, by the records in it, then mirrors the host tree, is good for the image checker and right for the kernel, which will allocate the blocks behind those in use next: behind the end when the image is full; the kernel finds at every path just what the host has there, as long as the names stay apart, and its directories are in order exactly then |
| Mkfs.CutClash | p5/tools/mkfs.c:177-179 | two empty files whose names differ in the last of 15 bytes fit, but their names clash after the cut |
| Mkfs.NamesClash | p5/tools/mkfs.c:177-179 | the image of these two files is good for the checker, and its directories are not in order for the kernel |
| MkfsTree.MirrorsFrame | p5/tools/mkfs.c:135-181 | what a subtree mirrors depends only on the inodes numbered after its root, so appends to other directories do no harm |
| MkfsTree.FlatThen | p5/tools/mkfs.c:170-174 | the bytes that reading a host file yields are those of its reads in order |
| MkfsGood.DirEntry | p5/xcheck.c:145-163 | what the checker reads from a directory block is what was appended, with number 0 as "." and 1 as ".." |
| MkfsGood.ReachableIs | p5/tools/mkfs.c:158-179 | exactly the inodes handed out can be reached from the root |
| MkfsGood.OneIn | p5/xcheck.c:335-337 | one entry leads to each of them, as its link count says |
| MkfsGood.BuiltGood | p5/tools/mkfs.c:194-230 | every image that has been built is good |
| MkfsKernel.BuiltInv | p5/kernel/fs.c:53-97 | and satisfies the invariant that the kernel keeps: bitmap and slots match, free blocks are zero |
| MkfsKernel.BuiltFree | p5/kernel/fs.c:60-74 | the first block that the kernel will allocate is the one behind those handed out: outside the image exactly when it is full |
| MkfsKernel.BuiltDir | p5/kernel/fs.c:464-493 | the kernel can work with a directory that was built exactly when its names stay different after the cut to 14 bytes, and then reads the children, "." and ".." with their inode numbers |
| MkfsHost.NodesApart | p5/tools/mkfs.c:177-179 | all directories of the image have different names exactly when the names in the host listing, and in all below it, stay different after the cut |
| MkfsHost.BuiltDirs | p5/kernel/fs.c:464-493 | the directories of the image are in order for the kernel if and only if the names of the host tree stay different after the cut |
| MkfsHost.WalkHost | p5/kernel/fs.c:567-600 | where the names stay apart, the kernel follows a path to a file with the bytes of the host, or to a directory, exactly when the host has one at that path |
| Mkfs.NameiHost | p5/kernel/fs.c:567-607 | on an image whose names stay apart the kernel finds at the path "/n1/../nk", from any current directory, just what the host has there |
| Umalloc.Allocator.Search | p5/user/umalloc.c:30-32 | ends, at the free block after which the freed block belongs |
| Umalloc.Allocator.Free | p5/user/umalloc.c:24-44 | the block leaves the live ones, no unit is lost, and the free list stays one ascending circle of disjoint blocks that do not touch |
| Umalloc.Allocator.Sbrk | p5/user/umalloc.c:54-56 | new memory above all earlier memory, or a refusal |
| Umalloc.Allocator.Morecore | p5/user/umalloc.c:46-61 | adds at least the units asked for from the kernel, or changes nothing |
| Umalloc.Allocator.Carve | p5/user/umalloc.c:75-84 | the upper end of a block that is large enough becomes the result |
| Umalloc.Allocator.Malloc | p5/user/umalloc.c:63-90 | first fit after freep, the upper end of the block; exactly one live block more, with room for nbytes bytes behind its header, which lie in no other block, and with no unit to spare; it fails only if the kernel refuses and no free block is large enough; the heap grows at most once |
| Umalloc.Allocator.Start | p5/user/umalloc.c:70-73 | the first call makes the free list |
| Umalloc.Allocator.Refill | p5/user/umalloc.c:86-88 | more memory and a fresh scan, or nothing |
| HeapList.Freed | p5/user/umalloc.c:33-43 | joining with both neighbours keeps the heap invariant |
| HeapList.Cut | p5/user/umalloc.c:79-81 | so does cutting off the upper end of a block |
| HeapList.Taken | p5/user/umalloc.c:76-77 | and taking a block out of the list |
| HeapList.Grown | p5/user/umalloc.c:56-59 | and adding memory from the kernel |
| HeapList.LiveApart | p5/user/umalloc.c:75-85 | two live blocks are disjoint, and live blocks are disjoint from free ones |
| HeapList.FreeApart | p5/user/umalloc.c:38-47 | the free list is one ascending circle, and no two free blocks touch |
| HeapList.UnitsCounted | p5/user/umalloc.c:24-90 | free units plus live units are all units obtained |
| Vm.Kernel.constructor | p3/xv6-sp19/kernel/kalloc.c:22-32 | after start-up all pages behind the kernel image are free but for three shared ones |
| Vm.Kernel.Initsharepg | p3/xv6-sp19/kernel/vm.c:407-418 | takes three different pages from the free list |
| Vm.Kernel.Kalloc | p3/xv6-sp19/kernel/kalloc.c:56-70 | the first page of the list, or 0 when it is empty; address spaces do not change |
| Vm.Kernel.Kfree | p3/xv6-sp19/kernel/kalloc.c:38-54 | the page becomes the first of the list |
| Vm.Kernel.Walkpgdir | p3/xv6-sp19/kernel/vm.c:55-75 | the page table of a page, created from a free page if asked; no entry of any address space changes |
| Vm.Kernel.MapOne | p3/xv6-sp19/kernel/vm.c:89-94 | one entry changes; the entry was zero, so the kernel does not panic; a page table is missing only for kernel pages, so below the user top it cannot fail |
| Vm.Kernel.Mappages | p3/xv6-sp19/kernel/vm.c:80-101 | a range is mapped, or the free list is empty with a page table still missing |
| Vm.Kernel.Setupkvm | p3/xv6-sp19/kernel/vm.c:125-152 | succeeds exactly with 13 free pages and then has no user page, and maps each kernel page to the physical page of its number, from 1 MB to the data read-only; otherwise all free pages are lost |
| Vm.LosesPages | p3/xv6-sp19/kernel/vm.c:136-152 | five free pages, and after one call none: they are part of a directory that is not returned |
| VmSteps.Unmap | p3/xv6-sp19/kernel/vm.c:271-277 | giving a private page back and clearing its entry keeps every page in one use |
| VmSteps.MapUser | p3/xv6-sp19/kernel/vm.c:94-94 | mapping a page just allocated keeps every page in one use |
| VmSteps.TableKeeps | p3/xv6-sp19/kernel/vm.c:65-72 | so does a new page table |
| VmSteps.DismantleKeeps | p3/xv6-sp19/kernel/vm.c:295-299 | and taking an address space without private pages apart |
| VmUser.Allocuvm | p3/xv6-sp19/kernel/vm.c:231-254 | fresh pages for exactly the new range, every byte of them zero, or everything as before; decided by the number of free pages |
| VmUser.FillPage | p3/xv6-sp19/kernel/vm.c:250-251 | one page is cleared and mapped |
| VmUser.NewPage | p3/xv6-sp19/kernel/vm.c:94-94 | a page with given contents is mapped; its page table exists |
| VmUser.Deallocuvm | p3/xv6-sp19/kernel/vm.c:260-281 | exactly the private pages of the range become free, all else stays |
| VmUser.DropPage | p3/xv6-sp19/kernel/vm.c:271-278 | one page is given back if it is mapped |
| VmUser.Freevm | p3/xv6-sp19/kernel/vm.c:285-300 | exactly the directory, page tables and private pages of the address space become free; shared pages do not |
| VmUser.FreeSize | p3/xv6-sp19/kernel/kalloc.c:18-18 | the length of the free list is the number of free pages |
| VmUser.FilledDropped | p3/xv6-sp19/kernel/vm.c:245-248 | undoing a failed allocation restores the use of every page |
| VmProc.Growproc | p3/xv6-sp19/kernel/proc.c:106-125 | keeps the shape of the address space; succeeds exactly below the gap with pages enough; adds bytes that are zero or gives back exactly the pages between, and keeps every byte that stays |
| VmProc.Growstack | p3/xv6-sp19/kernel/proc.c:130-138 | one zero page more at the bottom of the stack, exactly when the gap of 5 pages stays |
| VmProc.Shmget | p3/xv6-sp19/kernel/vm.c:424-438 | maps a shared page once, at the first free slot; refuses only numbers that do not exist |
| VmProc.CopyPage | p3/xv6-sp19/kernel/vm.c:318-328 | one page is copied to a fresh page, or there is none; the panics do not happen |
| VmProc.CopySlots | p3/xv6-sp19/kernel/vm.c:346-358 | the child has the shared pages of the parent in the same slots |
| VmProc.GiveUp | p3/xv6-sp19/kernel/vm.c:361-363 | freeing the half-made copy restores everything |
| VmProc.Copyuvm | p3/xv6-sp19/kernel/vm.c:304-364 | private pages are copied to fresh pages, shared pages mapped again; succeeds exactly with pages enough, and a failure after the kernel part restores everything |
| VmProc.Fork | p3/xv6-sp19/kernel/proc.c:144-184 | the child has the same shape and at every user address the same byte, on fresh pages from page 4 on and on the same shared pages below; the parent keeps its own; a failure restores everything, unless fewer than 13 pages were free: then all of those are lost; the pages taken are counted |
| VmProc.PagesConserved | p3/xv6-sp19/kernel/vm.c:231-364 | all these operations keep the pool, the shared pages and pages allocated for other purposes |
| VmExec.Exec | p3/xv6-sp19/kernel/exec.c:31-119 | fails exactly when a segment ends above the user part or there are too few pages, and then restores everything, unless fewer than 13 pages were free: then all of those are lost; otherwise the old address space is free and the new one has zeroed pages for image and stack and no others; it has the shape that all other operations keep exactly when the image leaves the gap below the stack, and an image that reaches into the page of the stack stops the kernel |
| VmExec.LoadImage | p3/xv6-sp19/kernel/exec.c:35-50 | the image grows to the end of each segment; a failure restores everything |
| VmExec.TopIsMax | p3/xv6-sp19/kernel/exec.c:35-50 | the image ends where the segment that ends last does, or at page 4 |
| VmExec.LoadStack | p3/xv6-sp19/kernel/exec.c:60-65 | one zeroed page for the stack, unless the image has that page already |
| VmExec.Discard | p3/xv6-sp19/kernel/exec.c:114-116 | giving up the new address space restores everything |
| VmExec.FreshShape | p3/xv6-sp19/kernel/exec.c:96-106 | the new address space has the shape of a process exactly when the image leaves the gap |
| VmExec.StartedProcess | p3/xv6-sp19/kernel/exec.c:31-110 | there is a process of that shape: exec of a program without segments, after start-up |
| VmProc.ForkedMemory | p3/xv6-sp19/kernel/vm.c:318-358 | parent and child agree on every byte, and share frames exactly below page 4 |
| VmCopyout.ShapeOneToOne | p3/xv6-sp19/kernel/vm.c:231-364 | the address space of a process maps no page twice |
| VmCopyout.ShapeTabled | p3/xv6-sp19/kernel/vm.c:136-152 | and has the page tables for all addresses below 16 MB and those of devices |
| VmCopyout.Copyout | p3/xv6-sp19/kernel/vm.c:382-404 | the user bytes become the source up to the first page without user access, and it fails exactly if there is one; no other byte changes |
| VmCopyout.Uva2ka | p3/xv6-sp19/kernel/vm.c:366-378 | the physical page of a page the user may access, else 0 |
| MrTable.DefaultHashPartition | p4a/mapreduce.c:225-231 | the signed characters as digits to the base 33 behind 5381, cut to an unsigned long, modulo the number of partitions |
| MrTable.HashIs | p4a/mapreduce.c:225-231 | the loop computes a polynomial of the characters, although it cuts in every round |
| MrTable.EmitReflects | p4a/mapreduce.c:185-206 | a partition that reflects what was emitted reflects one emit more |
| MrTable.EmitBucket | p4a/mapreduce.c:191-206 | the bucket that is emitted into holds one value more |
| MapReduce.Runtime.Emit | p4a/mapreduce.c:179-208 | every partition goes on to hold exactly what has been emitted into it |
| MapReduce.Runtime.Lookup | p4a/mapreduce.c:185-190 | the pair with the key, or the end of the list |
| MapReduce.Cursor.GetterNext | p4a/mapreduce.c:75-82 | the next sorted value of the pair that the partition is at, and nothing when all have been read |
| MapReduce.Cursor.Reduce | p4a/mapreduce.c:75-82 | what any number of calls of the getter yields |
| MapReduce.Runtime.ReduceThread | p4a/mapreduce.c:103-148 | the reducer is called once for each key of the partition, in strictly ascending order, and the getter hands it the values of that key in order and then nothing |
| MapReduce.Runtime.ListToArray | p4a/mapreduce.c:131-136 | the values of a pair in an array |
| MapReduce.Runtime.ReducePairs | p4a/mapreduce.c:127-141 | each call reads the values of its own pair, since the partition moves on after it |
| MrOrder.Strcmp | p4a/mapreduce.c:68-73 | the sign of the first difference of two strings, byte by byte, unsigned |
| MrOrder.SortedUnique | p4a/mapreduce.c:127-137 | there is one ascending order of a multiset of strings |
| MrResult.CallsResult | p4a/mapreduce.c:113-141 | the calls made from the table are the result of the emits |
| MrResult.ResultUnique | p4a/mapreduce.c:113-141 | the emits, as a multiset, determine the calls |
| MrTable.EmitKeepsTables | p4a/mapreduce.c:185-206 | so the tables of all partitions go on to reflect what was emitted |
| MrThreads.UnlockEmits | p4a/mapreduce.c:184-206 | nobody else changes a bucket between reading and writing it under its lock, so that the pair is emitted into the tables as they are then |
| MrThreads.RunReflects | p4a/mapreduce.c:84-206 | in every reachable state the tables, built by the interleaved threads, hold exactly what has been emitted |
| MrThreads.RunEmits | p4a/mapreduce.c:84-101 | in every complete run each file is mapped exactly once and just its output is emitted |
| MrThreads.RunResult | p4a/mapreduce.c:84-208 | the table that a complete run has built leads to the calls for the outputs of the files |
| MrThreads.SchedulingIndependent | p4a/mapreduce.c:84-208 | the tables of two complete runs lead to the same calls of every reducer, whatever the interleaving and the number of threads |
| MrThreads.StepWorks | p4a/mapreduce.c:84-101 | every step leaves one step less |
| MrThreads.RunEnds | p4a/mapreduce.c:84-101 | a complete run has one step for each file and two for each pair, and no run has more |
| MrThreads.NoStepFinal | p4a/mapreduce.c:89-93 | no deadlock: a run stops only when all files are done |
| ShellParser.Parser.Gettoken | p5/user/sh.c:267-307 | the next token of the line: kind, span, and where the following one starts |
| ShellParser.Parser.SkipWhite | p5/user/sh.c:273-274 | the first position that is not white space |
| ShellParser.Parser.SkipWord | p5/user/sh.c:296-297 | the end of the word |
| ShellParser.Parser.Peek | p5/user/sh.c:309-319 | skips white space and tells whether one of the symbols comes |
| ShellParser.Parser.Parseline | p5/user/sh.c:345-359 | the command of the grammar, or a panic |
| ShellParser.Parser.Parsebacks | p5/user/sh.c:350-353 | the "&" signs behind a command |
| ShellParser.Parser.Parsepipe | p5/user/sh.c:361-371 | the same for pipes |
| ShellParser.Parser.Parseexec | p5/user/sh.c:414-446 | the same for simple commands |
| ShellParser.Parser.Parseargs | p5/user/sh.c:427-442 | the words and redirections of a simple command, at most 9 words |
| ShellParser.Parser.Parseblock | p5/user/sh.c:398-412 | the same for blocks in parentheses |
| ShellParser.Parser.Parseredirs | p5/user/sh.c:373-396 | the redirections, ">>" read as ">" |
| ShellParser.Parser.Nulterminate | p5/user/sh.c:448-492 | writes a terminator behind every word and nowhere else |
| ShellParser.AllCut | p5/user/sh.c:448-492 | no terminator lands inside a word: every word is still read in full |
| ShellParser.StringsAre | p5/user/sh.c:448-492 | read up to their terminators, the words in the buffer are the words of the line |
| ShellParser.Parser.Parsecmd | p5/user/sh.c:326-341 | accepts exactly the lines of the syntax; the command that the shell then runs, its words read as strings from the buffer, is what the line means |
| ShellPrint.PrintParse | p5/user/sh.c:326-446 | every command with legal words and at most 9 arguments, printed as people type it, is read back: several redirections in a row included |
| ShellPrint.LineOfMeans | p5/user/sh.c:345-446 | every command has a line that means it, with as few parentheses as the syntax allows |
| ShellRead.LineRead | p5/user/sh.c:345-446 | a line of the syntax, with white space anywhere between its tokens, is read as what it means: words and redirections of a simple command in any order, the first redirection innermost |
| ShellParsed.LineParsed | p5/user/sh.c:345-446 | what the parser accepts is a line of the syntax, and means what was read |
| ShellParsed.ParsesSyntax | p5/user/sh.c:326-446 | the parser accepts exactly the lines of the syntax, each with its one meaning |
| ShellSyntax.WrapMeans | p5/user/sh.c:373-396 | redirections are put around a command in their order, the first one innermost |
| ProcTable.Ptable.Allocproc | p5/kernel/proc.c:32-54 | the first unused slot becomes an embryo with a pid above all others |
| ProcTable.Ptable.SetParent | p5/kernel/proc.c:145-145 | the running process becomes the parent of its embryo |
| ProcTable.Ptable.StartChild | p5/kernel/proc.c:157-157 | the embryo becomes runnable |
| ProcTable.Ptable.ForkFails | p5/kernel/proc.c:138-142 | the embryo is given up |
| ProcTable.Ptable.Exit | p5/kernel/proc.c:165-203 | the children go to the first process, those who wait are woken, the process is a zombie and nobody's parent |
| ProcTable.Ptable.GiveChildren | p5/kernel/proc.c:190-197 | the loop over the children |
| ProcTable.Ptable.GiveChild | p5/kernel/proc.c:191-195 | one round: a child goes to the first process, which is woken for a zombie |
| ProcTable.Ptable.Wait | p5/kernel/proc.c:207-246 | reaps a zombie child exactly if there is one, which has no children itself; otherwise returns or sleeps |
| ProcTable.Ptable.Sleep | p5/kernel/proc.c:331-354 | the running process sleeps on the channel |
| ProcTable.Ptable.Wakeup1 | p5/kernel/proc.c:368-376 | exactly the sleepers on the channel become runnable |
| ProcTable.Ptable.Kill | p5/kernel/proc.c:390-408 | the first process with the pid is marked and woken; fails exactly if there is none |
| ProcTable.Ptable.Schedule | p5/kernel/proc.c:266-275 | the first runnable process from a slot on runs |
| ProcTable.Ptable.Yield | p5/kernel/proc.c:309-316 | the running process becomes runnable |
| ProcTable.ExitKeeps | p5/kernel/proc.c:187-200 | exit keeps the invariant: nobody waits over a zombie child, zombies are nobody's parents, parents are older |
| ProcTable.ReachesInit | p5/kernel/proc.c:190-197 | the parents of every process lead to the first process |
| ProcTable.ZombieChildless | p5/kernel/proc.c:221-233 | a zombie has no children |
| BufferCache.Bcache.constructor | p5/kernel/bio.c:39-56 | the list holds all buffers |
| BufferCache.Bcache.Bget | p5/kernel/bio.c:58-93 | the buffer of the sector, or the one released longest ago of those nobody holds; sleeps or panics exactly when it must |
| BufferCache.Bcache.FindSector | p5/kernel/bio.c:70-80 | the walk from the front |
| BufferCache.Bcache.FindIdle | p5/kernel/bio.c:83-91 | the walk from the back |
| BufferCache.Bcache.Bread | p5/kernel/bio.c:95-105 | a buffer with what the disk holds, and the disk unchanged |
| BufferCache.Bcache.Fill | p5/kernel/fs.c:441-441 | whoever holds a buffer may change its contents |
| BufferCache.Bcache.Iderw | p5/kernel/ide.c:123-154 | one atomic transfer |
| BufferCache.Bcache.Bwrite | p5/kernel/bio.c:107-115 | the disk holds the buffer |
| BufferCache.Bcache.Brelse | p5/kernel/bio.c:117-137 | the buffer moves to the front of the list; the cache stays coherent exactly when the buffer has been written |
| BufferCache.Bcache.Unlink | p5/kernel/bio.c:126-127 | takes the buffer out of both chains |
| BufferCache.Bcache.ToFront | p5/kernel/bio.c:128-131 | links the buffer in behind the head |
| BufferCache.LinkedFront | p5/kernel/bio.c:128-131 | linking in behind the head keeps both chains |
| BufferCache.LinkedWithout | p5/kernel/bio.c:126-127 | so does unlinking |
| Pipe.PipeBuffer.Pipewrite | p5/kernel/pipe.c:75-95 | the bytes are accepted in order up to a full ring; sleepers stay justified exactly unless readers sleep and the writer gives up in the middle |
| Pipe.PipeBuffer.PutByte | p5/kernel/pipe.c:90-90 | one more byte is accepted |
| Pipe.PipeBuffer.GetByte | p5/kernel/pipe.c:113-113 | the next byte is delivered |
| Pipe.PipeBuffer.Piperead | p5/kernel/pipe.c:97-118 | delivers the next bytes that were accepted, as many as there are; sleepers stay justified |
| Pipe.PipeBuffer.Pipeclose | p5/kernel/pipe.c:57-73 | wakes the other end, and frees the pipe exactly when both ends are closed |
| Pipe.LostWakeup | p5/kernel/pipe.c:82-86 | a reader that sleeps on although the ring is full |
| Pipe.FullTest | p5/kernel/pipe.c:82-82 | the comparison of wrapped counters finds exactly a full ring |
| Pipe.EmptyTest | p5/kernel/pipe.c:103-103 | and exactly an empty one |
| Mlfq.Scheduler.MLFQ | p2b/xv6-sp19/kernel/proc.c:262-302 | every runnable process ages once, the first of those at the highest level runs, and levels and waiting counts stay in bounds |
| Mlfq.PassMeans | p2b/xv6-sp19/kernel/proc.c:262-302 | the process picked is at the highest level after ageing, and the first of that level in the order of the pass |
| Mlfq.AgedIs | p2b/xv6-sp19/kernel/proc.c:272-277 | a process below the top moves up after waiting 500, 320 or 160 passes at its level |
| Mlfq.PickedIs | p2b/xv6-sp19/kernel/proc.c:286-292 | a process moves down with every 8th, 16th and 32nd tick at levels 3, 2 and 1, and never at the lowest |
| Mlfq.Scheduler.Scan | p2b/xv6-sp19/kernel/proc.c:267-282 | the loop over the table |
| Mlfq.TurnIs | p2b/xv6-sp19/kernel/proc.c:269-270 | the pass comes by each slot exactly once |
| Mlfq.Scheduler.Visit | p2b/xv6-sp19/kernel/proc.c:272-277 | the ageing of one process |
| Mlfq.Scheduler.Better | p2b/xv6-sp19/kernel/proc.c:278-280 | the comparison with the best so far |
| Mlfq.Scheduler.Run | p2b/xv6-sp19/kernel/proc.c:284-295 | the tick of the process picked, and its way down |
| Mlfq.Scheduler.Allocproc | p2b/xv6-sp19/kernel/proc.c:43-60 | a new process starts at the top with zero counts |
| MlfqRuns.TopReached | p2b/xv6-sp19/kernel/proc.c:271-277 | in every run a process that stays runnable and is not picked is at the top level after at most 981 passes, and 981 may be needed |
| MlfqRuns.TopPicked | p2b/xv6-sp19/kernel/proc.c:262-302 | with at most 20 other processes and none created meanwhile, a process at the top level is picked within 161 passes |
| MlfqRuns.TopWaits | p2b/xv6-sp19/kernel/proc.c:262-302 | 21 busy processes in the slots 1 to 21 keep the processor from every process in a higher slot |
| MlfqRuns.TopWaitsForever | p2b/xv6-sp19/kernel/proc.c:262-302 | so with 21 others a process at the top level can wait through runs of any length |
| TicketLock.MutualExclusion | p4b/user/ulib.c:116-127 | in every reachable state at most one thread holds the lock and tickets in use differ, although counters wrap |
| TicketLock.FirstComeFirstServed | p4b/user/ulib.c:120-127 | a thread enters after exactly as many releases as its ticket was away from the turn |
| TicketLock.Served | p4b/user/ulib.c:116-127 | from every reachable state the lock can come to every thread that waits |
| TicketLock.WaitingDistance | p4b/user/ulib.c:120-127 | each release brings a waiting ticket one nearer |
| Grep.Match | p5/user/grep.c:71-81 | true exactly when the expression matches somewhere in the text, or at its start after '^' |
| Grep.MatchHere | p5/user/grep.c:83-95 | true exactly when the text starts with pieces that spell the expression |
| Grep.MatchStar | p5/user/grep.c:97-105 | the same for a repeated character and the rest |
| Grep.StartsStar | p5/user/grep.c:97-105 | a repetition takes nothing, or one character and a repetition |
| Grep.ShowRead | p5/user/grep.c:83-105 | every expression is read as the one pattern that it writes |
| Grep.ReadShow | p5/user/grep.c:83-105 | every pattern in which "*" and "$" are not ambiguous is read back from its writing |
| Grep.PlainMatches | p5/user/grep.c:71-95 | an expression of plain characters matches exactly where it occurs |
| Grep.PlainEnds | p5/user/grep.c:90-91 | with "$" behind them they have to be the rest of the text |
| Grep.DotStarts | p5/user/grep.c:92-93 | "." stands for any one character |
| Grep.StarStarts | p5/user/grep.c:97-105 | a character with "*" stands for any number of it, and ".*" for anything |

## Left out

- FileSystem.Fs.Readi: device inodes, whose reads go to a driver, and runs in which a hole finds no free block.
- FileSystem.Fs.Writei: device inodes, copying the new size to the record on disk (`iupdate`), and runs that find no free block.
- FileSystem.Fs.Itrunc: copying the in-core inode to its record on disk (`iupdate`), inode allocation and reference counts.
- FsDirectory.Dirlookup: the inode cache; the result is the inode number.
- FsDirectory.EraseEntry: the link counts of unlink and its test for an empty directory.
- The file system calls the buffer cache as an array of blocks: each `bread`, `bwrite` and `brelse` is one access.
- FsNamex.Namex: locks and reference counts on the way; entries name inodes in use, on which the kernel would stop otherwise.
- What a crash in the middle of an operation leaves on disk, and locks on inodes.
- Xcheck.Checker.Check: which error message is printed, and the repair mode; the image has a super block of at least 1024 blocks, and the entries that the traversal follows name inodes of the table, since the program indexes its arrays with them.
- Mkfs.Ialloc: inode numbers from 200 on, for which the super block leaves no room in the inode table: the records of 200 to 207 would go to the spare block 27, and those from 208 on over the bitmap in block 28. So the trees need at most 199 inodes.
- Mkfs.Build: failing host calls (opening or reading a file counts as its end), output, and the command line; the host tree is a value.
- Umalloc.Allocator.Malloc: the bytes in the blocks; addresses are counted in headers, and clients do not write headers.
- Vm.Kernel: a page is a free link, a page of entries or a page of bytes according to its use, so that the bytes of page tables and the junk in free pages are not seen; TLB, segments and the order of stores.
- VmUser.Allocuvm: ranges below page 4, where shared pages are mapped; the same for giving ranges back.
- VmCopyout.Copyout: addresses whose first page has no page table, where the kernel follows a null pointer.
- VmProc.Growproc: shrinking to less than page 4, which would give shared pages back.
- VmProc.Fork: kernel stack, trap frame, open files and the process table.
- VmExec.Exec: reading the program, whose segments are given by the addresses they end at, cut to 32 bits; their contents, arguments on the stack, and the registers. The first process, which maps page 0.
- MapReduce.Runtime.Emit: allocation and freeing of memory. It is one step here, and two under the lock of the bucket in `MrThreads`.
- MapReduce.Runtime.ReduceThread: `qsort` is a function that sorts; the reducer only calls the getter, any number of times.
- ShellParser.Parser.Parseexec: nodes are values, so a command node that gets words after a redirection was put around it is built at the end.
- Running commands, and the messages of the shell.
- ProcTable.Ptable.Allocproc: memory for the kernel stack is a truth value; address spaces, files and context switches.
- BufferCache.Bcache.Bget: a caller that must sleep calls again after it has been woken; the disk queue and interrupts.
- Pipe.PipeBuffer.Pipewrite: allocation of the pipe and its files; whether the process is killed is read once for each stretch under the lock.
- Mlfq.Scheduler.MLFQ: the context switch; counts do not overflow, and there is one processor.
- TicketLock.MutualExclusion: memory ordering; a step is one atomic access.
- Grep.Match: splitting the input into lines.
- Boot, devices, interrupts, system call arguments, user commands, kernel threads of the fourth project.
- The copies of these files in the other projects of the repository.
