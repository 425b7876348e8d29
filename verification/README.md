# The body's storage, memory, threads and proofs, verified

This project models the parts of the freestanding body and of its Python tools that hold the most state, and proves
what they keep. Each component is written twice: as the program does it (classes whose methods edit arrays, tables,
maps and lists in place, loop by loop) and as what it should amount to (a map from names to files, a map from pages to
leaves, a step function on threads, a tree of hashes). The methods are proved against the second form, and the
properties are proved about it, for every input and over whole runs. Every `PLANT_*` switch is taken as undefined.

The files, by component:

- **BODYFS, the record filesystem** (`bytes`, `layout`, `volume`, `acts`, `append_laws`, `file_map`, `fs_laws`,
  `crash`, `durability`, `record_log`, `record_safety`, `room`, `fs_runs`, `bodyfs`, `formats`). A device of 512-byte
  sectors, a superblock, a 2048-slot directory and a bump allocator. `volume` has the invariant (extents of present
  entries disjoint, inside the allocated region, under distinct names; directory on disk and in memory the same),
  `acts` the sector writes of every act in order, `file_map` what an act means on the map from names to files, and
  `fs_laws` that the two agree. In `crash` a device writes whole sectors in order, a crash falls between any two of
  them, and `fs_mount` runs: it finds exactly the files whose entries are on the disk, and `durability` says which
  those are. `record_safety` needs much less than a sound volume and gives the fixed record's safety over crashes
  anywhere. `room` says exactly when an act finds a slot and sectors. `bodyfs` is the driver: static state edited in
  place, proved to issue exactly the writes of `acts`. `formats` tells every structure on the disk by the offsets of
  its bytes.
- **The image, the tree archive and the listings** (`crc`, `crc_division`, `tree_archive`, `image`, `founding_pack`,
  `tree_image`, `listing`, `tree_listing`). What the Python builder prints, the C code parses back; the checksum is
  what polynomial division leaves.
- **Frames and page tables** (`pmm`, `page_tree`, `kernel_half`, `user_half`, `vmm`, `translation`, `map_runs`,
  `page_frames`, `ranges`, `address_space`). Four-level tables (section 4.5 of volume 3A of the Intel SDM) stored in
  frames of the allocator they map. Ghost roles say what each frame is for; the invariant makes the tables a tree and
  every owned page frame the frame of one leaf. `translation` says where an address leads, bit fields and huge pages
  included, and `user_half` what ring 3 needs on the way. On top come the memory calls brk, mmap, munmap and mprotect,
  told by pages and, through `ranges`, by addresses.
- **Scheduler, futex and join** (`sched_steps`, `sched_laws`, `sched_runs`, `sched_waits`, `sched_joins`,
  `sched_calls`, `scheduler`). A step machine: an act of ring 0 runs with interrupts off up to its block or switch and
  is one step; saving and resuming a continuation is a change of the current thread.
- **Merkle tree** (`merkle_tree`, `merkle_binding`, `merkle_proofs`, `merkle_localize`, `merkle_report`,
  `merkle_order`). The hash form is a free constructor over values, so equal digests are digests of equal values.
- **Heap and clock** (`heap`, `clock`). The first-fit list of headers inside the area it divides, and days-from-civil.
- **From boot** (`boot`). Each part initialised as the body initialises it and then run, through its methods'
  contracts alone. `wrappers` holds the one Option type.

Where the code falls short of what its name or its comments promise, the exact condition is proved instead:

- A swap of a file with itself loses it (`FsRuns.SwapNeedsTwoNames`), and a crash between the two writes of a swap
  loses the old final file, never staged bytes whose entry is on the disk (`Crash.SwapKeepsStaged`).
- A crash one write before the end of a new blob or marker leaves its extent unallocated; this is the only unsafe point
  of any act (`Crash.BlobStale`, `Crash.CrashSound`). The fixed record survives it all the same (`FsRuns.RunKeepsLog`).
- Out of space while creating, an append leaves an empty entry in memory (`FsLaws.ActLaw` through `FileMap.Next`); such
  entries, and nothing else, are what a mount forgets (`Crash.MountLaw`, `Crash.UnbornEmpty`).
- The builder accepts repeated and reserved blob names; the image then mounts to no sound volume (`Image.ImageSound`),
  and a lookup finds the first slot of the name (`Image.FirstFound`).
- A marker rewritten with more than its extent holds records a length it cannot read (`FsRuns.MarkerNeedsRoom`).
- Only the fixed record is append-only over all operations; a caller-named record can be removed, swapped over, or
  turned into a marker.
- The memory unmap call clears supervisor pages too, the break grows over them, and a mapping leaves one that is in its
  way a supervisor page (`AddressSpace.Space.Munmap`, `.Brk`, `AddressSpace.LaidAt`).
- Unmapping takes as many pages as the length asks for from the address's own page on, so a range that starts inside a
  page can keep its last page (`Ranges.PagesHold`, exactly when). A first break inside a page that is not there leaves
  that page out; the loader rounds it up (`AddressSpace.Space.Brk`, `AddressSpace.FirstPageStays`).
- An exit wakes one waiter on its word, so it leaves none exactly when there was at most one joiner
  (`SchedJoins.ExitLeaves`).
- `localize` does not name a directory whose own metadata changed when something below it changed as well
  (`MerkleLocalize.ReportsExactly`), and `verify_inclusion` looks neither at the leaf string nor at whether the leaf is
  a file (`MerkleProofs.DirectoryAccepted`).
- The heap's rounding wraps for the last fifteen 32-bit sizes (`Heap.RoundHolds`).

Three remarks on layout: the C struct of the superblock is 508 bytes while sector transfers move 512, and the model gives
it the missing four bytes of padding; `fs_find` compares the first 128 bytes of the name it is given, so a longer name
finds the entry of its truncation, and the model does the same; and the word of a record's header that disk.h calls an
append index holds the record's own sector within the file (code/src/body/bodyfs.c:158).

## Model

| member | source | states |
|---|---|---|
| DiskLayout.SuperRoundTrip | code/src/body/disk.h:123-134 | a superblock written and read back is the same, and no sector decodes two ways |
| DiskLayout.EntryRoundTrip | code/src/body/disk.h:136-147 | a directory entry written and read back is the same |
| DiskLayout.EntryBytesRoundTrip | code/src/body/disk.h:136-147 | and no 256 bytes decode two ways |
| Formats.EntryOffsets | code/src/body/disk.h:136-147 | every field of an entry is at its C offset, little-endian |
| Formats.SuperOffsets | code/src/body/disk.h:123-134 | and every field of the superblock |
| Formats.RecordOffsets | code/src/body/disk.h:153-158 | and of a record's header: its mark, the payload's length, its own sector |
| Formats.EntryPlace | code/src/body/bodyfs.c:88-97 | a mount reads entry i from byte 512 + 256 i of the disk on, and the superblock from its first sector |
| Formats.PersistedPlace | code/src/body/bodyfs.c:128-133 | and persisting writes them there |
| Volume.PersistLaw | code/src/body/bodyfs.c:128-133 | persisting one entry writes exactly the two entries of its sector as they are in memory, and no other |
| FsLaws.ActLaw | code/src/body/bodyfs.c:141-657 | every filesystem act keeps the invariant, is refused exactly when the map of files says so, and changes that map exactly as its abstract form: append extends, remove drops, rename and swap move, create adds, in every outcome; which outcome is Room's |
| Room.AppendRoom | code/src/body/bodyfs.c:242-283 | an append the map does not refuse ends without a slot exactly when the name is new and every slot is taken, and otherwise is done exactly when the bytes fit the entry's extent, the sectors from the extent on if it ends the allocated ones, or the free sectors; else it is out of space |
| Room.AppendSucceeds | code/src/body/bodyfs.c:262-283 | in particular whenever the whole file as it will be fits the free sectors and the name is there or a slot free |
| Room.ExtendTakes | code/src/body/bodyfs.c:262-283 | and then it takes as few sectors as hold the file, in place at the tail or at the first free sector |
| Room.RecordRoom | code/src/body/bodyfs.c:141-182 | a record write not refused is done exactly when header and payload fit the rest of the record's extent |
| Room.BlobRoom | code/src/body/bodyfs.c:434-492 | a new blob or marker ends without a slot exactly when all are taken, and is done exactly when its bytes, and one sector at least, fit the free ones |
| Room.MarkerRoom | code/src/body/bodyfs.c:623-657 | a marker rewritten is done exactly when its bytes fit its extent, and cut short otherwise |
| Room.SlotRoom | code/src/body/bodyfs.c:392-615 | a new directory needs a slot; swaps, renames, removals and equal rewrites need nothing |
| Room.CreatedEntry | code/src/body/bodyfs.c:242-250 | what a new entry says, word by word: the first free slot, the first free sector, as few sectors as hold the bytes, the allocator at its end |
| AppendLaws.ExtendAppends | code/src/body/bodyfs.c:252-310 | a completed append, in place or by relocation, with the shared tail sector read and rewritten, makes the entry's bytes the old ones followed by the payload and touches no other extent (when it completes is Room.AppendRoom) |
| AppendLaws.ExtendHidden | code/src/body/bodyfs.c:252-310 | every proper prefix of an append's writes leaves every file's bytes as they were |
| FsLaws.OverrunRewrite | code/src/body/bodyfs.c:434-465 | the one refusal the map leaves open: a blob given again to an entry that overruns its extent is accepted exactly when it is a blob and reads back as those bytes |
| Crash.CrashAtomic | code/src/body/bodyfs.c:88-384 | a crash after any prefix of the writes of an append, record write, rename, removal or mkdir mounts to a sound disk with exactly what the disk had of the old files or of the new ones; an adoption's first write is a state of its own |
| Crash.CrashSound | code/src/body/bodyfs.c:141-657 | any act cut at any write mounts to a sound disk if and only if it is not a new blob or marker cut one write before its end |
| Crash.BlobStale | code/src/body/bodyfs.c:486-491 | cut there, the blob is named, starts at the allocator's next sector and is unallocated |
| Crash.SwapCrash | code/src/body/bodyfs.c:404-416 | the three disks a crash in a swap can leave, exactly |
| Crash.SwapKeepsStaged | code/src/body/bodyfs.c:404-416 | staged bytes whose entry is on the disk are always there under one of the two names, and after both writes whatever the entry; between the two writes the old final is gone |
| Crash.MountLaw | code/src/body/bodyfs.c:88-97 | mounting a sound disk gives a sound volume with exactly the files whose entries are on the disk |
| Crash.UnbornEmpty | code/src/body/bodyfs.c:223-310 | a file whose entry is not on the disk is an empty record or staging file |
| Durability.ActDurable | code/src/body/bodyfs.c:128-657 | after any act no file that was on the disk and still exists has left it, and the file of an act that answered success is on it |
| Durability.UntouchedSurvive | code/src/body/bodyfs.c:141-657 | any act, whole or cut anywhere but at the unsafe point, leaves every name it is not about as the disk had it |
| RecordSafety.ActKeepsLog | code/src/body/bodyfs.c:141-657 | on any volume the acts run on, sound or not, every act performed or cut anywhere keeps the fixed record's place and log, grown by a completed record write |
| RecordSafety.MountLogs | code/src/body/bodyfs.c:88-97 | and so does a mount |
| FsRuns.RunKeepsLog | code/src/body/bodyfs.c:141-657 | over any run of acts and of crashes at any point the fixed record holds what it held followed by what was appended, and the volume stays one the acts run on |
| FsRuns.SoundLogs | code/src/body/bodyfs.c:141-182 | on a sound volume that log is what the map of files says of the record |
| FsRuns.RunSound | code/src/body/bodyfs.c:141-657 | a run without a cut at the unsafe point keeps the whole volume sound |
| FsRuns.RecordSurvives | code/src/body/bodyfs.c:141-208 | a record once appended reads back equal at its sector after any run; the record never shrinks |
| FsRuns.WalkAfterRun | code/src/body/diskcheck.c:203-221 | walking the record header by header after any run enumerates every payload ever appended, in order |
| FsRuns.FilesEqualWrites | code/src/body/bodyfs.c:223-384 | over any run of acts and crashes, whatever they do to other names and however the appends to this one end, its bytes are what it held and then the payloads of the appends that succeeded, in order |
| FsRuns.ReadsEqualWrites | code/src/body/disk.h:187-197 | and reading the named entry back gives those bytes |
| FsRuns.SwapNeedsTwoNames | code/src/body/bodyfs.c:392-417 | a completed swap puts the staged file under the final name if and only if the names differ |
| FsRuns.MarkerNeedsRoom | code/src/body/bodyfs.c:623-657 | a rewritten marker holds what was written if and only if it fits the extent |
| RecordLog.RecordReadsBack | code/src/body/bodyfs.c:190-208 | every record of the log reads back at its start sector exactly when it fits the reader's buffer |
| RecordLog.WalkEnumerates | code/src/body/diskcheck.c:203-221 | the walk from any record on enumerates the payloads from there |
| RecordLog.FirstRowIsFirst | code/src/body/diskcheck.c:203-221 | the row looked up is the first match the walk gets to |
| RecordLog.FirstRowFound | code/src/body/diskcheck.c:203-221 | an answer is always such a row's |
| RecordLog.FirstRowNone | code/src/body/diskcheck.c:203-221 | there is no answer exactly when the walk gets to no match |
| BodyfsDriver.Bodyfs.FsMount | code/src/body/bodyfs.c:88-97 | succeeds exactly on the magic, the version and a directory that fits and is on the device; then holds the superblock and as much directory as it claims, and beyond that what it held before |
| BodyfsDriver.Bodyfs.FsFind | code/src/body/bodyfs.c:99-105 | the first present entry of that name |
| BodyfsDriver.Bodyfs.FsRecordWriteAt | code/src/body/bodyfs.c:141-182 | on any volume the acts run on, issues exactly the specified writes, in order, and leaves the specified volume; a sound one stays sound, with the specified files |
| BodyfsDriver.Bodyfs.FsRecordAppend | code/src/body/bodyfs.c:184-188 | the same, at the record's own length |
| BodyfsDriver.Bodyfs.FsNrecAppend | code/src/body/bodyfs.c:223-310 | the same for a caller-named record, with adoption of an empty staging file, growth in place and relocation; which of them, and when there is no room, is Room.AppendRoom and Room.ExtendTakes |
| BodyfsDriver.Bodyfs.FsDurableWrite | code/src/body/bodyfs.c:320-384 | the same for a staging file, its room told by Room.AppendRoom |
| BodyfsDriver.Bodyfs.FsSwapRename | code/src/body/bodyfs.c:392-417 | the same for the swap |
| BodyfsDriver.Bodyfs.FsBlobWriteOnce | code/src/body/bodyfs.c:434-492 | the same for a write-once blob; an equal rewrite is accepted, a different one refused |
| BodyfsDriver.Bodyfs.FsRemove | code/src/body/bodyfs.c:538-548 | the same for removal, never of the record |
| BodyfsDriver.Bodyfs.FsMkdir | code/src/body/bodyfs.c:576-589 | the same for a directory |
| BodyfsDriver.Bodyfs.FsRename | code/src/body/bodyfs.c:604-615 | the same for a rename to an absent name |
| BodyfsDriver.Bodyfs.FsMarkerWrite | code/src/body/bodyfs.c:623-657 | the same for a marker |
| BodyfsDriver.Bodyfs.FsReadEntry | code/src/body/bodyfs.c:494-505 | the whole file, exactly when it fits the buffer and, unless empty, the device |
| BodyfsDriver.Bodyfs.FsReadEntryRange | code/src/body/bodyfs.c:513-535 | the bytes from the cursor on, clipped to the file's end and to the device's |
| BodyfsDriver.Bodyfs.FsRecordRead | code/src/body/bodyfs.c:190-208 | one record by its start sector, or none |
| BodyfsDriver.Bodyfs.FindRow | code/src/body/diskcheck.c:203-221 | the first matching row the walk can reach |
| Crc.Crc32Feed | code/src/body/bodyfs.c:66-77 | the loop over bytes and bits computes the register's fold |
| Crc.OneByteChanges | code/src/body/bodyfs.c:66-77 | one byte changed anywhere changes the checksum, since every step can be undone |
| CrcRegister.ShiftBack | code/src/body/bodyfs.c:70-73 | the reflected step has an inverse |
| CrcMirror.ShiftDivides | code/src/body/bodyfs.c:70-73 | the reflected step is, on the mirrored register, a step of long division by the polynomial of RFC 1952, section 8 |
| CrcDivision.ChecksumDivides | code/src/body/bodyfs.c:66-82 | so the checksum, mirrored, is the complement of the remainder of the bytes, lowest bit first, from a register of ones |
| CrcDivision.WideDigits | code/src/body/bodyfs.c:66-77 | a byte enters the register as its binary digits |
| FoundingPack.FsFoundingPackRead | code/src/body/bodyfs.c:660-680 | the pack's length and checksum, and whether it is the recorded one |
| FoundingPack.BuiltPackMatches | code/src/body/mkdisk.py:208-283 | the pack of every built image matches its recorded checksum |
| FoundingPack.TamperedPackDiffers | code/src/body/bodyfs.c:660-680 | and does not if any one byte of it is changed |
| FoundingPack.PackIsFound | code/src/body/bodyfs.c:660-662 | it is the entry a lookup finds, whatever else was staged |
| Image.BuildImage | code/src/body/mkdisk.py:208-283 | the builder refuses exactly what does not fit and otherwise lays out the specified disk |
| Image.ImageExtents | code/src/body/mkdisk.py:208-283 | superblock and entries of the mounted image by field: extents adjoin from the first data sector to the next free one, each as short as holds its bytes, the record's of its fixed length, a blob's never empty |
| Image.ImageSound | code/src/body/mkdisk.py:187-283 | a built image mounts as a sound volume if and only if what is staged has distinct names, none of them the two reserved ones |
| Image.ImageFiles | code/src/body/mkdisk.py:208-283 | under such names it holds exactly an empty record, the pack and each staged blob under its name |
| Image.FirstFound | code/src/body/mkdisk.py:208-283 | under any names a lookup on the mounted image finds the first slot of the name and its bytes |
| Image.NoneFound | code/src/body/mkdisk.py:208-283 | and no other name |
| TreeImage.ServeTreeOpen | code/src/body/serve.c:990-1021 | looks the archive up, opens the path in it and hands out the lowest free descriptor; -2 for absence, -1 for no archive to scan or no descriptor |
| TreeImage.FdAlloc | code/src/body/serve.c:884-892 | the lowest free descriptor, or -1 when all are in use |
| TreeImage.TreeInImage | code/src/body/serve.c:956-1021 | on a built image the lookup finds the staged tree, every file of it opens by its path and reads back byte for byte, and any other path is absent |
| TreeArchive.BuildTreeArchive | code/src/body/mkdisk.py:150-180 | the archive is header, padded table and region, or the tree is refused |
| Formats.HeaderOffsets | code/src/body/mkdisk.py:171-173 | the archive's header by offset: mark, version, count, length, zeros |
| Formats.TableEntryOffsets | code/src/body/mkdisk.py:158-166 | a table entry by offset: the padded path, where its bytes are, their number and checksum |
| TreeArchive.TreeReader.Open | code/src/body/serve.c:990-1021 | from the archive's first sector, the first entry of that name, or none, or no archive to scan |
| TreeArchive.TreeReader.ReadRange | code/src/body/serve.c:966-987 | the bytes of the device from base plus cursor, clipped to the file and to the device, across sectors |
| TreeArchive.OpenAgrees | code/src/body/serve.c:956-1021 | on a printed archive an open answers with the first file of that path and its place, length and checksum, or with absence, for every path that fits the field |
| TreeArchive.BytesAgree | code/src/body/serve.c:966-987 | and reading there gives the file's bytes |
| TreeArchive.PathEqExact | code/src/body/serve.c:956-961 | the padded comparison is equality of paths that fit |
| Listing.ListedOnce | code/src/body/serve.c:2157-2182 | resumed calls with any buffer sizes return the entries once each and in order, and reach the end |
| Listing.EndOfListing | code/src/body/serve.c:2157-2182 | a call returns nothing exactly at the end |
| Listing.FittingIsMost | code/src/body/serve.c:2157-2182 | what one call returns fits its buffer, and with the next entry would not |
| Listing.RecdirGetdents | code/src/body/serve.c:2157-2182 | one call returns as many children from the cursor as fit, and moves the cursor past them |
| Listing.ChildrenExactly | code/src/body/serve.c:2048-2063 | the children listed are exactly the present entries directly inside |
| Listing.ChildrenOnce | code/src/body/serve.c:2157-2182 | each once, where present entries have distinct names |
| TreeListing.TreeGetdents | code/src/body/serve.c:2068-2114 | the same for a directory of the tree archive |
| TreeListing.ListsChildren | code/src/body/serve.c:2080-2097 | the scan lists exactly the files directly inside and the subdirectories with a file below |
| TreeListing.ListsOnce | code/src/body/serve.c:2094-2098 | remembering the last subdirectory alone lists each once, because the paths are sorted |
| Pmm.Allocator.Init | code/src/body/pmm.c:45-95 | the free frames are exactly the wholly available ones outside the low mebibyte, the image and the modules, and the count is theirs |
| Pmm.Allocator.ReserveRange | code/src/body/pmm.c:35-43 | marks exactly the frames a byte range touches |
| Pmm.Allocator.Alloc | code/src/body/pmm.c:97-106 | the lowest free frame, or none exactly when the count is zero; the count stays exact |
| Pmm.Allocator.Free | code/src/body/pmm.c:108-114 | frees that frame only; freeing a free frame changes nothing |
| Pmm.CountUpdate | code/src/body/pmm.c:21-33 | setting or clearing a bit moves the number of free frames by one or not at all |
| PageTree.WalkUnique | code/src/body/vmm.c:259-272 | two walks that end in one table are for one root and one 2 MiB region, the direct map apart |
| PageTree.LeafChangesOne | code/src/body/vmm.c:145-161 | writing a leaf changes one page of one map |
| PageTree.OneFrameOnePage | code/src/body/serve.c:622-635 | no frame is behind two user pages |
| KernelHalf.LinkedKeeps | code/src/body/vmm.c:124-143 | linking a zeroed table into an empty slot changes no page of any map, no ownership and no kernel half |
| KernelHalf.PromotedKeeps | code/src/body/vmm.c:169-190 | nor does opening an intermediate link to ring 3 |
| KernelHalf.IdentityNeverUser | code/src/body/vmm.c:69-108 | in every map that matches the kernel half no page below CANONICAL_BASE is user at all its levels |
| KernelHalf.DirectMapNeverUser | code/src/body/vmm.c:69-108 | nor is any page of the direct map's gibibyte |
| Paging.Vmm.VmmInit | code/src/body/vmm.c:69-108 | the boot map entry by entry, no 4 KiB leaf anywhere, its kernel half matching, its five tables a tree; where its addresses lead is Translation.BootTranslates |
| Translation.BootTranslates | code/src/body/vmm.c:69-108 | every 64-bit address of the boot map: below CANONICAL_BASE to itself, DIRECT_MAP_BASE + phys to phys for every phys below 1 GiB, anything else nowhere |
| Translation.IdentityLeads | code/src/body/vmm.c:81-85 | in every map that carries the kernel half every address below CANONICAL_BASE leads to itself |
| Translation.DirectLeads | code/src/body/vmm.c:100-104 | and DIRECT_MAP_BASE + phys to phys below 1 GiB |
| Translation.MappedLeads | code/src/body/vmm.c:145-161 | every address of a page just mapped leads to the physical page asked for, offset for offset |
| Translation.IxFields | code/src/body/vmm.c:146-149 | the indices of the walk are the four nine-bit fields of the address |
| Paging.Vmm.NextTable | code/src/body/vmm.c:124-190 | one level down, with allocation, and promotion on behalf of ring 3; stopped exactly by a huge page or by no frame, and then nothing has changed |
| Paging.Vmm.VmmMap | code/src/body/vmm.c:145-161 | on success that page reads the new leaf; on failure, half-way allocations included, no page of any map reads differently |
| Paging.Vmm.VmmMapUser | code/src/body/vmm.c:195-213 | the same for a user page of the active map, which ring 3 then reads and writes, the direct map's slot apart |
| UserHalf.UserPagesWritten | code/src/body/vmm.c:163-213 | under the invariant of every table operation, a user leaf has USER and RW at every level above it, in every map, the direct map's slot apart |
| UserHalf.LinkedOpen | code/src/body/vmm.c:169-190 | which a fresh table keeps |
| UserHalf.PromotedOpen | code/src/body/vmm.c:185-187 | and an opened link, level by level from the root |
| UserHalf.LeafOpen | code/src/body/vmm.c:195-213 | and a leaf written |
| Paging.Vmm.VmmUnmap | code/src/body/vmm.c:215-230 | that page reads absent and no other page of any map changes |
| Paging.Vmm.VmmQueryIn | code/src/body/vmm.c:259-354 | the leaf of a page, or absent |
| Paging.Vmm.VmmMapNew | code/src/body/vmm.c:292-328 | an empty user half, the kernel half shared, no other map changed; out of frames everything is given back |
| Paging.Vmm.VmmSwitch | code/src/body/vmm.c:333-336 | the map user pages go to |
| Paging.Vmm.VmmMapKernelHalfMatches | code/src/body/vmm.c:360-371 | decides whether a map carries the kernel half |
| MapRuns.RunAll | code/src/body/vmm.c:145-336 | after any run of map, map_user, unmap, map_new and switch every page of every map, new ones and the shared direct map included, reads the leaf last written for it, and every kernel half is held |
| MapRuns.NeverUser | code/src/body/vmm.c:163-213 | so that ring 3 reaches no page of the identity or of the direct map's gibibyte however many links were opened |
| PageTree.DirectShared | code/src/body/vmm.c:292-328 | under the direct map's slot every map shows what the body's does |
| PageFrames.Given | code/src/body/serve.c:601-613 | a page given a fresh frame reads its bytes and nothing else is seen to change |
| PageFrames.Taken | code/src/body/serve.c:657-663 | a page cleared reads nothing, its frame is nobody's, and nothing else is seen to change |
| PageFrames.OwnedIsMapped | code/src/body/serve.c:622-635 | every owned page frame is behind a user page of some map |
| AddressSpace.Space.Brk | code/src/body/serve.c:412-454 | down: exactly the pages that begin between the new break and the old are given back, and no page with an address below the new one changes; up: exactly those that begin between are there, zeroed or kept; the answer given, every address from the first break to the new one shows bytes if those to the old one did and the first page is the program's or begins there, and keeps what it showed; out of frames the break stays |
| AddressSpace.Space.Mmap | code/src/body/serve.c:537-622 | reserve, eager, MAP_FIXED and file-backed mappings: what every page shows, every address of the range its own page of the file or zeros, no page without an address in it changed, the answer, and the next address a guard page past the range |
| AddressSpace.Space.Munmap | code/src/body/serve.c:636-667 | every page of that length from the address's page boundary on reads absent, whoever's it was, and no other changes |
| AddressSpace.Space.Mprotect | code/src/body/serve.c:679-705 | made accessible, exactly the absent pages the range touches are backed by zeros, in order, until one cannot be: answered 0, no address of the range shows nothing |
| Ranges.PagesHold | code/src/body/serve.c:638-641 | an unmapping takes every page of its range exactly when the start's offset in its page and the length less one's do not add up to a page |
| Ranges.SpansTouches | code/src/body/serve.c:688-690 | from the boundary below to the one above, the pages are those with an address in the range |
| Ranges.SpansStarts | code/src/body/serve.c:416-417 | between two breaks rounded up, those that begin in the range |
| AddressSpace.Covered | code/src/body/serve.c:416-453 | a break moved over a range that is the program's throughout leaves it all of the range up to it |
| AddressSpace.FirstPageStays | code/src/body/serve.c:416-453 | a first break inside a page leaves that page as it is |
| AddressSpace.BytesLead | code/src/body/vmm.c:195-213 | an address whose page shows bytes is one ring 3 reads and writes, and leads to its place among them |
| AddressSpace.Space.Run | code/src/body/serve.c:412-705 | any run of the four calls keeps the tables a tree, the frames accounted for and the free count exact, and changes no other map |
| AddressSpace.Space.SetBrkBase | code/src/body/serve.c:348-353 | the loader's first break |
| AddressSpace.Space.GrowAndShrink | code/src/body/serve.c:412-454 | growing the break over absent pages and shrinking it back leaves every page as it was |
| AddressSpace.UsedExactly | code/src/body/pmm.c:97-118 | a frame is in use exactly when reserved, held, a table, or behind a user page |
| AddressSpace.UsedOnce | code/src/body/serve.c:622-635 | and only one of these, and behind one page |
| AddressSpace.LaidAt | code/src/body/serve.c:594-616 | a completed mapping shows each page its own content exactly where no supervisor page was in the way |
| SchedLaws.StepGood | code/src/body/enclosure.c:523-781 | every step keeps: one running thread in ring 3, blocked exactly with a wait address, ids distinct and below the next |
| SchedRuns.RunGood | code/src/body/enclosure.c:523-781 | so does every run |
| SchedRuns.OneRuns | code/src/body/enclosure.c:584-626 | while ring 3 runs the current thread is running and no other is |
| SchedRuns.IdsNeverReused | code/src/body/enclosure.c:708-714 | along any run the ids handed out strictly increase |
| SchedRuns.CloneRefused | code/src/body/enclosure.c:523-541 | with a valid argument pointer EAGAIN if and only if all 31 other slots hold threads that have not ended |
| SchedRuns.CloneMade | code/src/body/enclosure.c:700-731 | a new thread takes the first slot whose thread has ended and is not current, and touches no other thread; field by field it enters at the caller's return address with the function and the argument given, its own thread pointer, word to clear and next id, runnable for the first time, with no wait and no deadline, on the end of the stack given or, without a size, 16-aligned 0x2000 to 0x200F bytes below its thread pointer |
| SchedRuns.WakeCounts | code/src/body/enclosure.c:567-577 | a wake releases min(nr, waiters) waiters |
| SchedRuns.WakeOnly | code/src/body/enclosure.c:567-577 | only waiters on that word, the earlier slots first |
| SchedCalls.WakeAnswers | code/src/body/enclosure.c:567-577 | a wake answers the smaller of what it was asked and of the threads asleep on the word, and leaves that many fewer |
| SchedCalls.NoWait | code/src/body/enclosure.c:764-781 | a wait on no user address or on a changed word is told -11, another command 0, and nothing else changes |
| SchedCalls.ExitClears | code/src/body/enclosure.c:734-746 | an exit ends its thread, clears its own word and writes no other |
| SchedCalls.EndedStays | code/src/body/enclosure.c:745-752 | an ended thread never runs again; its slot goes to a new thread with the next id |
| SchedCalls.PickIsNext | code/src/body/enclosure.c:544-551 | the turn goes to the first runnable slot after the current one, starting over after the last |
| SchedRuns.Fair | code/src/body/enclosure.c:544-551 | a thread that stays runnable gets its turn within 31 switches and 31 ticks |
| SchedRuns.LeavesByRunning | code/src/body/enclosure.c:584-660 | a thread stops being runnable only by running |
| SchedWaits.RealtimeDue | code/src/body/serve.c:751-787 | a realtime deadline is due if and only if clock_gettime(REALTIME) has reached it, through subtraction, split and recombination |
| SchedWaits.MonotonicDue | code/src/body/serve.c:765-787 | a monotonic one if and only if clock_gettime(MONOTONIC) has |
| SchedWaits.RunTimely | code/src/body/enclosure.c:554-564 | in every reachable state a thread still blocked has not reached its deadline, and one to be told of a timeout has |
| SchedWaits.WaitEnds | code/src/body/enclosure.c:554-577 | a wait ends by a wake on its word with 0, or at its deadline and not before with -ETIMEDOUT |
| SchedWaits.WaitBegins | code/src/body/enclosure.c:754-781 | a wait whose word matches sleeps on it, unless its clock has already reached the deadline, and then it is told -ETIMEDOUT at once |
| SchedWaits.ResultStays | code/src/body/enclosure.c:754-779 | what it came out as is what the thread is told |
| SchedJoins.JoinSafe | code/src/body/enclosure.c:734-752 | with one joiner a word no thread is ever left waiting on the word of a thread that has ended, slots reused or not |
| SchedJoins.ExitLeaves | code/src/body/enclosure.c:734-743 | an exit leaves one waiter fewer on its word |
| Scheduling.Scheduler.PickNext | code/src/body/enclosure.c:544-551 | the round-robin scan |
| Scheduling.Scheduler.ExpireDeadlines | code/src/body/enclosure.c:554-564 | releases exactly the threads whose deadline has passed |
| Scheduling.Scheduler.FutexWake | code/src/body/enclosure.c:567-577 | wakes in slot order and answers the number woken |
| Scheduling.Scheduler.Block | code/src/body/enclosure.c:616-626 | one round of the block loop |
| Scheduling.Scheduler.TimerTick | code/src/body/enclosure.c:644-662 | the timer in ring 3 and in an idle loop |
| Scheduling.Scheduler.Clone3 | code/src/body/enclosure.c:665-732 | the specified new state, refused or made; what a thread made starts with is SchedRuns.CloneMade |
| Scheduling.Scheduler.ThreadExit | code/src/body/enclosure.c:734-752 | clear, wake one, end, switch away |
| Scheduling.Scheduler.Futex | code/src/body/enclosure.c:754-781 | wake, wait, timed wait and everything else |
| Scheduling.Scheduler.FutexCall | code/src/body/serve.c:2574-2591 | the call as it comes in, a realtime deadline converted first |
| Scheduling.Scheduler.RunAll | code/src/body/enclosure.c:628-781 | any run of the class is a run of the step function |
| MerkleTree.Structure | code/src/bridge/merkle.py:79-111 | builds the hierarchy entry by entry |
| MerkleTree.HashBinds | code/src/bridge/merkle.py:114-134 | equal hashes if and only if equal nodes, as far as the scheme sees them |
| MerkleOrder.LessByCharacters | code/src/bridge/merkle.py:129 | names and paths are ordered by their first differing character, a prefix first |
| MerkleOrder.HashedOver | code/src/bridge/merkle.py:114-134 | a file's hash is over its entry, a directory's over one pair for each child, its name and its hash, ascending by characters, and under scheme 2 over its own entry beside them |
| MerkleOrder.BuiltInOrder | code/src/bridge/merkle.py:79-111 | so it is in the hierarchy of every flat state |
| MerkleBinding.BuiltShows | code/src/bridge/merkle.py:79-111 | at every path the hierarchy shows exactly what the flat state says: its entry, an implied directory, or nothing |
| MerkleBinding.RootBindsState | code/src/bridge/merkle.py:137-152 | under scheme 2 two well-formed states have one root if and only if they are equal |
| MerkleBinding.RootBindsShape | code/src/bridge/merkle.py:137-152 | under scheme 1 if and only if they have the same file entries and the same directories |
| MerkleProofs.InclusionProof | code/src/bridge/merkle.py:214-247 | a proof for exactly the file leaves |
| MerkleProofs.VerifyInclusion | code/src/bridge/merkle.py:250-271 | accepts exactly when the fold gives the root |
| MerkleProofs.ProofsComplete | code/src/bridge/merkle.py:214-271 | every file of a state has a proof that folds to the root of the same state and scheme, and nothing else has one |
| MerkleProofs.ProofsSound | code/src/bridge/merkle.py:250-271 | whatever is accepted names, root to leaf, a path of the state whose node has the leaf hash |
| MerkleProofs.OtherSchemeRejected | code/src/bridge/merkle.py:250-271 | a path that is not empty is rejected under the other scheme |
| MerkleProofs.DirectoryAccepted | code/src/bridge/merkle.py:250-271 | a directory's audit path is accepted too, whatever leaf it claims |
| MerkleLocalize.Localize | code/src/bridge/merkle.py:155-167 | the specified report of two flat states; its order is MerkleOrder.ReportByCharacters |
| MerkleLocalize.WalkOut | code/src/bridge/merkle.py:170-197 | the walk, appending to what has been found |
| MerkleLocalize.NothingReported | code/src/bridge/merkle.py:155-197 | empty if and only if the roots are equal |
| MerkleLocalize.ReportsExactly | code/src/bridge/merkle.py:170-197 | a path is named if and only if it differs and is not, in both states, a directory with a difference below it |
| MerkleLocalize.FilesReported | code/src/bridge/merkle.py:155-197 | every file added, removed or changed is listed by its path |
| MerkleReport.ReportAscends | code/src/bridge/merkle.py:155-167 | the report is in strictly ascending order, each path once |
| MerkleOrder.ReportByCharacters | code/src/bridge/merkle.py:155-167 | of two paths reported the earlier ends where the later goes on, or has the smaller character where they first differ |
| MerkleOrder.ReportNeverDescends | code/src/bridge/merkle.py:155-167 | and of states that are not well-formed the report never descends |
| MerkleReport.ReportedExactly | code/src/bridge/merkle.py:155-197 | a string is in it if and only if it spells a path to be reported |
| MerkleReport.WalkOnce | code/src/bridge/merkle.py:170-197 | the walk names no path twice |
| MerkleReport.SortTextsSorted | code/src/bridge/merkle.py:167 | sorting keeps every string as often as it was there |
| Heap.Area.Kmalloc | code/src/body/heap.c:36-60 | the first free block that fits, split if its tail can be one; none exactly when none fits |
| Heap.Area.Kfree | code/src/body/heap.c:62-72 | the block freed and joined with a free next one |
| Heap.GivenBack | code/src/body/heap.c:36-72 | a block given out and given back at once leaves the blocks as they were, exactly unless it was given whole and the next was free |
| Heap.FreedJoins | code/src/body/heap.c:62-72 | a block given back reaches to the end of the next one if that was free |
| Heap.TakenSplits | code/src/body/heap.c:46-56 | what is left of a block given out is a free block to the old one's end exactly when it can hold a header and 16 bytes |
| Heap.Area.Run | code/src/body/heap.c:29-72 | over any run the blocks tile the area and the live ones are exactly those given out and not given back |
| Heap.Area.OwnerWrites | code/src/body/heap.c:51-53 | an owner's writes, even where headers used to be, harm nothing |
| Heap.BytesConserved | code/src/body/heap.c:29-72 | headers and sizes add up to the whole area |
| Heap.Apart | code/src/body/heap.c:29-72 | blocks are inside the area, in order and apart |
| Heap.TakenLive | code/src/body/heap.c:36-60 | giving out a block keeps every live one and adds one |
| Heap.FreedLive | code/src/body/heap.c:62-72 | giving one back keeps every other |
| Heap.RoundHolds | code/src/body/heap.c:37 | the rounded size holds what was asked if and only if the size is at most 2^32 - 16 |
| Clock.NextDay | code/src/body/clock.c:98-111 | from each date to the next the day number grows by one |
| Clock.NumberIsCount | code/src/body/clock.c:98-111 | the day number is the number of days counted from 1970-01-01 |
| Clock.NumberGrows | code/src/body/clock.c:98-111 | later dates have greater numbers |
| Clock.EpochGrows | code/src/body/clock.c:98-111 | the epoch is strictly monotone in date and time |
| Clock.NextSecond | code/src/body/clock.c:98-111 | it starts at 0 and grows by one each second, over midnight and the ends of months and years |
| Clock.ClampedExactly | code/src/body/clock.c:108 | the clamp takes exactly the dates before 1970 |
| Clock.WrapIsHarmless | code/src/body/clock.c:105 | on real months the unsigned wrap is a subtraction |
| Clock.ZerosAreOnes | code/src/body/clock.c:100-101 | a zero month or a zero day, each on its own, reads as the first |
| Clock.EpochFits | code/src/body/clock.c:109-110 | the result fits 64 bits |
| Boot.Paged | code/src/body/vmm.c:69-108 | after pmm_init and vmm_init no page has a leaf, the tables are the body's five, every address leads where it should, and what is in use is exactly what the loader's map and the image make so |
| Boot.PagedRun | code/src/body/vmm.c:69-336 | any run of table operations from there: every page of every map reads its last leaf or nothing, ring 3 reads and writes every user page below the direct map's slot, and with operations below that slot it reaches no kernel page and the kernel's addresses lead where they did |
| Boot.ProgramRun | code/src/body/serve.c:412-705 | any run of memory calls from there: a frame is in use exactly when not spare at boot, a table, or behind a user page, and ring 3 reads and writes every user page |
| Boot.HeapRun | code/src/body/heap.c:29-72 | any run of the heap from heap_init |
| Boot.SchedRun | code/src/body/enclosure.c:523-781 | any run of the scheduler from sched_init is the run of the step function |

## Left out

- Sector reads and writes fail only beyond the end of the device; other ATA errors, port I/O, interrupts, MSRs, the GDT and assembly stubs are not modelled.
- 32-bit and 64-bit overflow outside the arithmetic named above: payloads are bounded so that lengths and sectors stay in 32 bits on this disk, addresses and lengths of memory calls, futex deadlines in nanoseconds and thread ids do not wrap.
- FsRuns.FilesEqualWrites: told of runs without a cut at the one unsafe point of a new blob or marker; past it the map from names to files, though not the fixed record, is outside the model's promises, since the blob's sectors may be given to another file.
- Crc.Crc32: stands for Python's `zlib.crc32` in the printer as well; that the two are one function is assumed.
- AddressSpace.Space.Mmap: a supervisor page in its range must show a frame that is neither one of the program's tables nor one of its pages; through any other the fill would overwrite them.
- AddressSpace.Space.Run: the active map is the boot map, as in the default build; builds that query the active enclosure's map, and the lwIP heap budget, are not modelled.
- Paging.Vmm.NextTable: covers both of the program's two walks, with and without promotion; the program-range check and the huge-page withdrawal self-checks are left out.
- The contents of frames are 512-entry tables; a user page's bytes are one such value, and the zeroing and copying loops over one page are a single store.
- SchedJoins.JoinSafe: assumes the program keeps to one living thread and one joiner a word, waits there for an id that is not zero, and does not store to those words itself.
- The scheduler's saved registers, SSE areas, kernel stacks and counters; a thread's program is the run's list of acts.
- MerkleProofs.VerifyInclusion: proofs have the shape the maker gives them; proofs with missing fields or wrong types, on which the Python code answers False or raises, are one absent proof.
- MerkleTree.Structure: children are kept in name order from the start, where the program sorts when it hashes; the annotated tree is not stored, its hashes are computed where they are used.
- MerkleLocalize.ReportsExactly: states are well-formed (paths in their one spelling, no file above another entry).
- Listing.RecdirGetdents: the buffer holds records rather than bytes, and names that fill the whole field are taken to end with it.
- TreeListing.TreeGetdents: works on the archive's list of paths, each shorter than its field; the union with the record disk's names at the root is not modelled.
- TreeArchive.BuildTreeArchive: the walk that collects the tree's files and their order is a parameter.
- Heap.Area.Kfree: only addresses kmalloc gave and that were not given back, or none, are freed.
- Clock.NumberIsCount: reading the registers of the clock chip and BCD decoding are left out.
- Network, entropy, the bridge and socket relays, SHA-256, ELF loading, the system-call table, the crossing trails, and checkpoint and recovery tools.
