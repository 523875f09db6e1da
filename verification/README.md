# Verified models of PiPAPo's storage and kernel-object core

PiPAPo is a small Unix-like kernel for microcontrollers. This project models, in Dafny, the parts of it where
state is edited in place and a mistake costs data, and proves what those parts are there for:

- **UFS** (`Ufs*.dfy`): the disk is a sequence of 512-byte sectors that every routine reads and writes through one
  shared sector buffer, as the driver does. A ghost table of inodes and a ghost map from blocks to the place that
  points to them (`own`) give the disk its meaning. `FsOk` is the invariant of the whole volume: every block that is
  pointed to is allocated and pointed to once, every directory chunk is tiled exactly by records, the link count of a
  regular file is the number of its names, inodes not in use own nothing, and the two cached counts are the numbers of
  0xFF bytes of the map and of clear bits of the inode bitmap from the root on (the inodes below it are reserved).
  `UfsFresh.EmptyVolume` shows that it can be met, with no block lost, on every geometry with room for one block, and
  create, mkdir, link, unlink, write and truncate are proved to keep it, on the `-ENOSPC` exits too. Where they do
  not keep it, the exact condition is part of the contract.
- **Pipes and descriptors** (`Pipe.dfy`, `FdPool.dfy`, `Pipe{Protocol,Invariant,Core,Runs}.dfy`): the ring and the
  descriptor pool as classes, then any number of processes taking the critical sections of `pipe.c` and `fd.c` as
  atomic steps in any order, with one invariant over all orderly runs and its core over all runs.
- **FAT32** (`Fat*.dfy`): the one-sector write-back cache as a class whose view is a plain table; cluster chains over
  that table; `vfat_read` and `vfat_write` against the bytes of a chain.
- **Paths and mounts** (`PathNormalize.dfy`, `PathWalk.dfy`, `Mounts.dfy`): in-place normalisation of an aliased
  buffer against a stack of components; the walk with its references and against a recursive resolution; mounting and
  unmounting under all interleavings.
- **sed** (`Sed*.dfy`): the compiler from patterns to bytecode, the backtracking matcher with captures, and the
  substitution loop; what they mean is stated on written patterns, on texts cut into pieces, and on whole lines.
- **romfs** (`Romfs*.dfy`): the image builder and the driver that reads the image, in both byte orders.
- **push's environment** (`PushEnv.dfy`): the packed, compacting string pool as a finite map.
- **64-bit arithmetic** (`Math64.dfy`): division and multiplication from 32-bit parts.

Methods follow the C code branch by branch. Each is proved against a function or predicate of the old state, and the
laws are lemmas about those. `Bytes.dfy`, `Arith.dfy`, `Sums.dfy` and `Options.dfy` are shared helpers; `UfsCases.dfy`
and `FatCases.dfy` run the operations from an empty volume into the states that the list below singles out.
`UfsLayout.dfy`, `FatLayout.dfy` and `RomfsLayout.dfy` say in sectors and bytes where everything stands that the other
statements speak of; `PathLaws.dfy` does the same for paths in names.

Assumptions: block devices never fail; `sched_sleep_current_unlock` puts the process to sleep and drops the lock in
one step and `sched_wakeup` wakes every sleeper on its channel; the bytes of a page transfer are a sequence; vnode and
scratch allocation inside the UFS driver succeed; the driver mutexes of UFS and FAT make each call one critical
section. Sizes that the code keeps in 32 bits wrap in the model (`% WORD`), and 16-bit link counts do too.

## What the code does differently from what one might expect

These came out of the proofs; the model follows the code.

- A `ufs_write` that runs out of space after the first byte returns a positive count but never stores the inode. A
  byte it reports is in the file if and only if the inode already had the pointer that leads to its block: the direct
  pointer, or the one to the single or double indirect block (`UfsFiles.ShortReported`). The other reported bytes are
  holes and the blocks taken for them are lost: of the blocks that were free exactly those stay with the file that
  fill empty places under such pointers (`UfsFiles.ShortLost`, `UfsFiles.ShortKept`). As the size stays too, a reader
  sees such a byte only below the old size (`UfsFiles.ShortRead`). No other file is touched. `UfsCases.ShortWrite`
  reports 4096 bytes, none of which is in the file.
- A shrink that keeps part of an indirect block frees the blocks behind the cut but leaves their pointers in the
  block. The volume stays sound exactly when there was none of them (`UfsTruncate.ShrinkSoundIff`,
  `UfsSound.TruncateFile`); cutting a file of 14 blocks to 13 leaves one (`UfsCases.StalePointer`).
- For a length above 2^32 - 4096 the number of blocks to keep wraps to 0, so `ufs_truncate` frees the whole tree
  although the new size is not zero (`UfsTruncate.KeepBlocksCovers`, `UfsTruncate.KeepBlocksWraps`). In
  `UfsCases.CutAtWrap` a byte far below the new end is gone.
- `ufs_read` and `vfat_read` add offset and count in 32 bits, so a count that wraps the sum is not cut at the size: of
  a file of 5 bytes in one block, 4 GiB - 1 bytes asked for from byte 1 on give 4095, to the end of the block
  (`UfsFiles.Read`, `FatFile.Read`, `UfsCases.ReadPastEnd`).
- Link counts are 16 bits wide and nothing stops the 65536th link: `UfsOps.Link` and `UfsMkdir.Mkdir` keep the volume
  sound if and only if the count was below 65535. `UfsCases.TooManyLinks` and `UfsCases.TooManyDirectories` get there,
  on a geometry that the driver takes though mkufs makes none with so many inodes.
- The byte behind a name is written only by accident: in a reused directory slot it is NUL if and only if it was
  before (`UfsDirent.TailKept`, `UfsDirent.TailInput`), contrary to the comment at `src/kernel/vfs/ufs_format.h:100`.
  The driver never relies on it.
- Names longer than 255 bytes are cut when a record is added or removed, while lookup reports ENOENT for them. Neither
  create nor mkdir looks whether the name exists, and link does so only for names that are not cut. A listing without
  repeated names keeps that property if and only if the (cut) name was not listed (`UfsDirs.UniqueAdd`, and the
  contracts of `UfsOps.Create`, `UfsOps.Link` and `UfsMkdir.Mkdir`); `UfsCases.CreatedTwice` makes a duplicate.
- Setting any flag on a pipe's read end with F_SETFL makes its close count down the writers
  (`Pipe.FlagsMisleadClose`, `FdPool.SetFlagsEnd`). Such a step, and no other, breaks the pipe invariant
  (`PipeRuns.StepOk`); `PipeRuns.Misled` ends with a reader counted where there is none. What does not rest on the
  counts survives it (`PipeCore.CoreNext`): references, closes, and the bytes in order.
- In sed, `^` is relative to the place where each search under `g` begins (`SedCases.CaretTwice`), an empty match
  directly behind a replaced match is replaced as well (`SedCases.EmptyBehind`), and a star on a group does nothing.
  In `\n` the `n` is the letter.
- `vfat_write` with a count of zero behind the end of a file still raises its size; clusters added to reach the
  offset are not zeroed, so the gap reads as zeros if and only if the lowest free clusters held zeros
  (`FatFile.GapReads`, `FatCases.GapOfSevens`, `FatCases.NothingWritten`). When clusters run out it returns the bytes up
  to the end of the last one to be had, or ENOSPC when not even the offset is in reach; it returns 0 only when asked
  for 0 (`FatFile.OutcomeIs`).
- `env_set` drops the old variable first, so a call that fails for lack of room loses it (`PushEnv.Env.Set`,
  `PushEnv.SetAndLost`).
- mkromfs cuts the target of a symbolic link to 255 bytes and a file's size to 32 bits (`RomfsNodes.Cut`,
  `RomfsNodes.Sized32`). It compares the size of the image with its buffer modulo 2^32, so it takes a tree that does not
  fit if and only if that remainder fits, and then stores outside the buffer (`Romfs.Pack`,
  `Romfs.TooLargeForTest`).

## Model

| member | source | states |
|---|---|---|
| UfsTree.Disjoint | src/kernel/vfs/ufs.c:417-540 | In a sound volume a pointer that is not 0 names a real, allocated block, and no two places of any inode's tree point to the same block. |
| UfsTree.DisjointHasOwner | src/kernel/vfs/ufs.c:417-540 | Conversely, disjoint ownership of allocated blocks is all that soundness asks: the owner map used everywhere else exists. |
| UfsTree.TakeBlock | src/kernel/vfs/ufs.c:227-243 | Taking a block out of the free map keeps every pointer tree, lowers the free count by one, and leaves the block allocated and unowned. |
| UfsTree.ReleaseBlock | src/kernel/vfs/ufs.c:246-258 | Returning an allocated, unowned block keeps every tree and raises the free count by one. |
| UfsTree.AttachEntry | src/kernel/vfs/ufs.c:487-540 | Storing an unowned block in an empty entry of an indirect block changes that one slot of the volume, keeps disjoint ownership, and touches neither inodes nor the free map. |
| UfsTree.AttachTop | src/kernel/vfs/ufs.c:471-486 | The same for a pointer field of an inode. |
| UfsTree.Cleared | src/kernel/vfs/ufs.c:1439-1506 | If some pointers were zeroed and only blocks they named were freed, ownership is still disjoint, and exactly the cleared blocks left the owner map. |
| UfsFormat.CountFreeStep | src/kernel/vfs/ufs.c:227-258 | The free count is the number of 0xFF map bytes: freeing or taking one block changes it by exactly one. |
| UfsFormat.SetUsedFrame | src/kernel/vfs/ufs.c:263-294 | Setting or clearing one bit of the inode bitmap changes that inode's mark and no other, no free-map byte, no inode and no data. |
| UfsFormat.SyncedFrame | src/kernel/vfs/ufs.c:299-313 | Writing back the counts stores both of them in superblock and cylinder group and touches no bitmap, inode or data sector. |
| UfsBlocks.Ufs.AllocBlock | src/kernel/vfs/ufs.c:227-243 | ENOSPC exactly when no map byte is 0xFF, changing nothing; else the first free block, taken, all trees as before. |
| UfsBlocks.Ufs.FreeBlock | src/kernel/vfs/ufs.c:246-258 | EINVAL below the data area, an error when the map byte would lie behind the device, changing nothing; else that byte becomes 0xFF and the count goes up by one, which leaves the volume sound if and only if the byte belongs to an allocated block without an owner. |
| UfsBlocks.Ufs.ZeroFrags | src/kernel/vfs/ufs.c:319-326 | Exactly the eight sectors of the block become zero, so as an indirect block it is empty. |
| UfsBlocks.Ufs.AllocInode | src/kernel/vfs/ufs.c:263-280 | The lowest unused inode above the root is marked, or ENOSPC exactly when there is none, with nothing else changed on disk that matters to trees or files. |
| UfsBlocks.Ufs.FreeInode | src/kernel/vfs/ufs.c:283-294 | Of the bitmap only that inode's bit is cleared, and the count goes up; EINVAL outside the table. |
| UfsBlocks.Ufs.WriteInode | src/kernel/vfs/ufs.c:201-209 | The inode table changes in that inode alone, although inodes share sectors. |
| UfsBlocks.Ufs.BlockMap | src/kernel/vfs/ufs.c:417-465 | The pointer at logical block l of a file: direct, single or double indirect; out of range exactly past both. |
| UfsBlocks.Ufs.BlockSet | src/kernel/vfs/ufs.c:471-540 | Afterwards logical block l names the new block. Where there was none, indirect blocks are made exactly on the way there and owned by the slots of this inode that lead there; ENOSPC leaves the new block unowned, is returned only on a full disk and never for a direct block. Where there was one, only that pointer changes, and the old block stays allocated without an owner. Past the double-indirect range it is ENOSPC and nothing changes. |
| UfsBlocks.SlotsKept | src/kernel/vfs/ufs.c:471-540 | So ufs_block_set changes ufs_block_map at one logical block of one file only: every pointer there was stays, and no other data slot of any file appears. |
| UfsFiles.OffsetInRange | src/kernel/vfs/ufs.c:723-862 | Every 32-bit offset lies inside the double-indirect range, so the range errors of read and write are never taken. |
| UfsFiles.Write | src/kernel/vfs/ufs.c:761-862 | A full count means that exactly the given bytes stand at the given offsets, holes of the blocks reached read as zero, every other byte of this file and of all others is as before, no block is lost and the size is the maximum. Three free blocks for each block touched suffice for it. Anything less leaves the inode as it was: on a full disk, with exactly the bytes under pointers the inode had. |
| UfsFiles.ShortReported | src/kernel/vfs/ufs.c:801-862 | After a short write a reported byte is in the file if and only if the inode had the pointer that leads to its block; if not, it is a hole as before. |
| UfsFiles.ShortRead | src/kernel/vfs/ufs.c:706-862 | A reader sees a byte that a short write reported if and only if it is in the file and below the old size. |
| UfsFiles.ShortLost | src/kernel/vfs/ufs.c:801-862 | A short write takes all free blocks; one of them stays with the file if and only if a slot names it that was empty, that the bytes written lead to, and that hangs under a pointer the inode had. All others are lost. |
| UfsFiles.ShortKept | src/kernel/vfs/ufs.c:801-862 | Each such slot, known from the volume before, the offset and the count, names a block that was free. |
| UfsFiles.Read | src/kernel/vfs/ufs.c:706-757 | Reads min(n, size - offset) bytes, each the file's byte at its position, and fewer only up to a hole; nothing from the size on. If offset + n reaches 2^32 the count is not cut and positions go on at 0. The disk does not change. |
| UfsFiles.ReadBack | src/kernel/vfs/ufs.c:706-862 | Reading any part of a written range gives back the written bytes, also across the 32-bit wrap. |
| UfsFiles.WriteThenRead | src/kernel/vfs/ufs.c:706-862 | After a complete write, ufs_read of any part of the range returns exactly what was written and reads of all other files return what they did before. |
| UfsFiles.OtherBytes | src/kernel/vfs/ufs.c:761-862 | Whatever grows one file (data or indirect blocks at any level) leaves every byte of every other file. |
| UfsLayout.InodeMapAt | src/kernel/vfs/ufs.c:263-294 | Inode i is in use when bit i % 8 of byte i / 8 of the inode bitmap is set. |
| UfsLayout.DoubleAt | src/kernel/vfs/ufs.c:417-465 | Logical blocks from 1036 on are named, 128 to a sector, in the blocks that are named in the block that the inode's word at byte 92 names (`DirectAt` and `IndirectAt` say it of the others, `ByteStands` of the bytes). |
| UfsLayout.WroteAt | src/kernel/vfs/ufs.c:761-862 | A write, position by position: the given bytes in its range, zeros for holes of the blocks it reaches, everything else as before. |
| UfsReclaim.FreeIndirectPtrs | src/kernel/vfs/ufs.c:106-115 | Exactly the blocks named by the pointers from `start` on in the buffered sector become free, although freeing overwrites the shared buffer. |
| UfsReclaim.FreeDoubleIndirect | src/kernel/vfs/ufs.c:124-185 | Exactly the data blocks at index `keep` or later and the inner blocks that start at or past `keep` become free, each once, and with `keep` 0 the outer block; the outer entries of freed inner blocks are zeroed, the others kept. |
| UfsTruncate.FreeTree | src/kernel/vfs/ufs.c:1439-1506 | The three passes together free exactly the blocks of the file that serve only logical blocks past `keep`, and zero exactly the inode's pointers to those. |
| UfsTruncate.Truncate | src/kernel/vfs/ufs.c:1423-1522 | Growing changes the size and nothing else; shrinking frees exactly the blocks past the new end; directories are refused. |
| UfsTruncate.ShrinkSoundIff | src/kernel/vfs/ufs.c:1483-1506 | After a shrink there is disjoint ownership again if and only if no pointer past the new end stands in an indirect block that is kept. |
| UfsTruncate.ShrinkGood | src/kernel/vfs/ufs.c:1439-1506 | Without such a pointer the rest of the volume is sound and no allocated block became unowned. |
| UfsTruncate.StaleMeans | src/kernel/vfs/ufs.c:160-172 | Which pointers those are, in block numbers: past the end, in the indirect block of the last block kept. |
| UfsTruncate.ShortNeverStale | src/kernel/vfs/ufs.c:1439-1461 | Cutting a file to its direct blocks or to nothing never leaves one. |
| UfsTruncate.ShrinkBytes | src/kernel/vfs/ufs.c:1423-1522 | Bytes before the cut and all bytes of other files stay; bytes behind it are gone. |
| UfsTruncate.KeepBlocksCovers | src/kernel/vfs/ufs.c:1463-1467 | The computed number of blocks is the least that holds the length, if and only if the length is at most 2^32 - 4096. |
| UfsTruncate.KeepBlocksWraps | src/kernel/vfs/ufs.c:1463-1467 | A concrete length for which it is 0. |
| UfsDirent.FillChunk | src/kernel/vfs/ufs.c:1026-1035 | Reusing a deleted record: the chunk stays exactly tiled and lists one entry more. |
| UfsDirent.SplitChunk | src/kernel/vfs/ufs.c:1037-1055 | The same for splitting a live record that has room behind its name. |
| UfsDirent.ClearChunk | src/kernel/vfs/ufs.c:1190-1244 | Zeroing a record's inode: still exactly tiled, that entry gone, its room reusable. |
| UfsDirent.FindInChunk | src/kernel/vfs/ufs.c:666-696 | The scan of a chunk finds a live record of the name exactly when the chunk lists one. |
| UfsDirent.FindRoom | src/kernel/vfs/ufs.c:1021-1058 | The slot search finds room exactly when some record of the chunk has it. |
| UfsDirent.TailKept | src/kernel/vfs/ufs.c:1026-1055 | The byte behind the name belongs to the record and is 0 after it is written if and only if it was before. |
| UfsDirent.TailInput | src/kernel/vfs/ufs.c:1026-1035 | A name added, removed and replaced by a shorter one: the byte behind the shorter name is not 0. |
| UfsLayout.RecordPut | src/kernel/vfs/ufs.c:1026-1055 | What is stored for an entry: the inode at byte 0 of the record, a zero type at 6, the length of the name at 7, the name from 8 on; nothing else changes. |
| UfsLayout.ListedIs | src/kernel/vfs/ufs.c:666-696 | A chunk lists exactly the records with an inode that the scan from its start meets. |
| UfsLayout.RoomIs | src/kernel/vfs/ufs.c:1021-1058 | It has room exactly when one of the records met has so much behind its own live entry. |
| UfsDirs.Lookup | src/kernel/vfs/ufs.c:629-702 | ENOENT exactly when the directory lists no such name (or it is longer than 255 bytes); else an entry of that name. |
| UfsDirs.AddEntry | src/kernel/vfs/ufs.c:988-1121 | On success the listing gains exactly that entry; ENOSPC leaves the listing; with room in some chunk it succeeds without allocating. |
| UfsDirs.RemoveEntry | src/kernel/vfs/ufs.c:1190-1244 | On success the listing loses exactly one entry of that name, its inode number is returned, and room for it remains; ENOENT exactly when there is none. |
| UfsDirs.DirIsEmpty | src/kernel/vfs/ufs.c:1250-1305 | True exactly when the listing holds nothing but "." and "..". |
| UfsDirs.RefinesGet | src/kernel/vfs/ufs.c:629-702 | When names are unique the listing is a map, and lookup is get. |
| UfsDirs.RefinesInsert | src/kernel/vfs/ufs.c:988-1121 | Adding an absent name is insert. |
| UfsDirs.UniqueAdd | src/kernel/vfs/ufs.c:988-1121 | Adding a record keeps a listing free of repeated names if and only if its name was not listed. |
| UfsDirs.RefinesDelete | src/kernel/vfs/ufs.c:1190-1244 | Removing is delete. |
| UfsDirs.UniqueIsMap | src/kernel/vfs/ufs.c:629-702 | A listing without repeated names refines some map. |
| UfsDirs.ChunkPut | src/kernel/vfs/ufs.c:1007-1060 | Storing a chunk of one directory changes that chunk and nothing else in any directory, file, tree or bitmap. |
| UfsDirs.OtherDir | src/kernel/vfs/ufs.c:988-1121 | Whatever grows one file or directory leaves every other directory's chunks. |
| UfsLinks.LinksAdd | src/kernel/vfs/ufs.c:1648-1671 | With one more name of a file, link counts are right if and only if its count rose by one. |
| UfsLinks.LinksRemove | src/kernel/vfs/ufs.c:1570-1599 | With one name less and one link less counts are right, and at zero the inode may go out of use because nothing names it. |
| UfsLinks.LinksRemoveDir | src/kernel/vfs/ufs.c:1526-1619 | Removing an empty directory lowers its own count and its parent's, and both still cover what refers to them. |
| UfsLinks.LinksMkdir | src/kernel/vfs/ufs.c:1309-1419 | A new directory with its two dots and one more link of the parent keeps all counts. |
| UfsLinks.CountAdd | src/kernel/vfs/ufs.c:1648-1671 | The number of records with a property, over a multiset of records, grows by one with each such record. |
| UfsOps.Create | src/kernel/vfs/ufs.c:1125-1184 | Keeps the volume sound; on success a fresh inode has exactly one name and one link, and names stay unique if and only if the name was not listed; on ENOSPC (no inode or no block left) all listings, inodes in use and file bytes are as before. With room in the directory it takes no block. |
| UfsOps.Link | src/kernel/vfs/ufs.c:1623-1677 | EPERM exactly for directories, EEXIST exactly for a listed name of at most 255 bytes; success adds the record and a link, and names stay unique if and only if the cut name was not listed; the volume is sound afterwards if and only if it failed or the count was below 65535. |
| UfsOps.Unlink | src/kernel/vfs/ufs.c:1526-1619 | Keeps the volume sound; ENOENT exactly for an unlisted name, ENOTEMPTY exactly for a directory that lists more than its dots; removing the last name of a file frees exactly its blocks and its inode; ENOTEMPTY puts the record back without allocating and leaves every listing, inode and owner as it was. |
| UfsOps.Reap | src/kernel/vfs/ufs.c:1572-1597 | Afterwards a block is free if and only if it was free or belonged to the file. |
| UfsOps.WriteTree | src/kernel/vfs/ufs.c:761-862 | A write, complete or cut short, keeps every inode, listing and link count in order; a complete one loses no block. |
| UfsOps.ShrinkTree | src/kernel/vfs/ufs.c:1423-1522 | So does a shrink without stale pointers. |
| UfsSound.WriteFile | src/kernel/vfs/ufs.c:761-862 | ufs_write keeps the invariant of the whole volume whatever it returns. |
| UfsSound.TruncateFile | src/kernel/vfs/ufs.c:1423-1522 | ufs_truncate keeps it if and only if it does not shrink or leaves no stale pointer; then no block is lost, no listing and no other file's byte changes, and the file has its bytes up to the last block kept and none behind. |
| UfsSound.FreeOrOwned | src/kernel/vfs/ufs.c:227-258 | On a sound volume that lost no block every data block is either free and named by no pointer, or allocated and named by exactly one. |
| UfsMkdir.Mkdir | src/kernel/vfs/ufs.c:1309-1419 | On success the parent gains one entry, the new directory has a new inode with the given mode and lists itself and the parent, and names stay unique if and only if the name was not listed; on ENOSPC all listings are as before, save that a directory whose name did not fit stays in use unnamed; sound if and only if it failed or the parent's count was below 65535. |
| UfsMkdir.MakeDir | src/kernel/vfs/ufs.c:1317-1394 | The new block holds exactly "." and ".." and belongs to the new inode; on ENOSPC nothing changed. |
| UfsLayout.NewFileBytes | src/kernel/vfs/ufs.c:1125-1184 | A new file's inode: type and nine permission bits, one link, zeros. |
| UfsLayout.NewDirBytes | src/kernel/vfs/ufs.c:1309-1394 | A new directory's inode: type and nine permission bits, two links, 4096 bytes, its one block. |
| UfsLayout.DotsBytes | src/kernel/vfs/ufs.c:1332-1372 | Its first chunk, byte by byte: "." in 12 bytes and ".." in 500, of type 4. |
| UfsFresh.EmptyVolume | tools/mkufs/mkufs.c:1192-1318 | Every geometry with a data block has a sound volume with nothing but the root directory, which lists its dots: inodes up to the root marked, one block taken, none lost. |
| UfsCases.ShortWrite | src/kernel/vfs/ufs.c:801-862 | Two blocks written to an empty file where one is free: ufs_write returns 4096 on a sound volume, no byte is in the file, its size is 0 and a block is lost. |
| UfsCases.OneBlockShort | src/kernel/vfs/ufs.c:801-862 | That for every volume with one free block and every file without pointers. |
| UfsCases.StalePointer | src/kernel/vfs/ufs.c:1483-1506 | A file of 14 blocks cut to 13 on a new volume leaves it unsound. |
| UfsCases.CutAtWrap | src/kernel/vfs/ufs.c:1463-1467 | A file with a byte in it, grown to 2^32 - 1 and cut to 2^32 - 4095: the byte read before is not there any more, on a sound volume. |
| UfsCases.TooManyLinks | src/kernel/vfs/ufs.c:1648-1671 | A file with 65535 names on a sound volume: one link more succeeds, and the count is 0. |
| UfsCases.TooManyDirectories | src/kernel/vfs/ufs.c:1396-1419 | 65534 directories made in one: the last one succeeds, and the parent's link count is 0. |
| UfsCases.CreatedTwice | src/kernel/vfs/ufs.c:1125-1184 | Creating a listed name succeeds, and the listing is not a map any more. |
| UfsCases.ReadPastEnd | src/kernel/vfs/ufs.c:706-757 | A file of five bytes, read from byte 1 on with a count that wraps: 4095 bytes come back. |
| Pipe.RingPop | src/kernel/vfs/pipe.c:81-135 | Advancing the tail takes the first byte off the ring, with wrap-around. |
| Pipe.RingPush | src/kernel/vfs/pipe.c:85-173 | Storing at the head and advancing it appends a byte unless 511 are there. |
| Pipe.PipeT.TryRead | src/kernel/vfs/pipe.c:107-135 | The critical section of pipe_read: it delivers min(n, bytes in the ring), the first ones, and the rest stays; end-of-file exactly on an empty ring without a writer, blocking exactly on an empty ring with one. |
| Pipe.PipeT.TryWrite | src/kernel/vfs/pipe.c:144-173 | The critical section of pipe_write: with a reader it accepts min(n, 511 - bytes in the ring), the first ones, behind the ring; EPIPE exactly without readers, blocking exactly on a full ring with a reader. |
| Pipe.PipeT.CloseEnd | src/kernel/vfs/pipe.c:176-197 | A flag word of 0 takes one from the readers, any other one from the writers, 0 becoming 255; the pipe is to be freed exactly when both are 0. |
| Pipe.FlagsMisleadClose | src/kernel/vfs/pipe.c:181-185 | Closing a read end counts down the readers if and only if its flag word is exactly O_RDONLY; otherwise the writers' count may wrap to 255. |
| FdPool.Pool.Alloc | src/kernel/vfs/fd.c:35-49 | The first slot without references and driver becomes an empty one with one reference; -1 exactly when there is none. |
| FdPool.Pool.Get | src/kernel/vfs/fd.c:51-62 | Succeeds exactly on an open, referenced slot in range, and adds one reference. |
| FdPool.Pool.Release | src/kernel/vfs/fd.c:141-158 | One reference less. Only the last one clears the slot, and hands a copy of it, as it was opened, to the driver's close. |
| FdPool.SetFlagsEnd | src/kernel/vfs/fd.c:568-590 | F_SETFL keeps the two access bits and takes all others from its argument: a write end stays one; a read end keeps its closing behaviour if and only if no settable flag is set. |
| PipeInvariant.LocalStep | src/kernel/vfs/fd.c:35-158 | Any step of one process that balances references and ends keeps the invariant of all processes, slots and pipes. |
| PipeInvariant.WokenInv | src/kernel/vfs/pipe.c:120-135 | Waking all sleepers of a pipe keeps it, and nobody sleeps there afterwards. |
| PipeRuns.StepOk | src/kernel/vfs/pipe.c:101-236 | A critical section of pipe create, open, dup, read, write, close or F_SETFL keeps the invariant if and only if it does not set a flag on a pipe's read end. |
| PipeRuns.RunInv | src/kernel/vfs/pipe.c:101-236 | It holds in every state of every run without such a step. |
| PipeCore.CoreStep | src/kernel/vfs/fd.c:35-158 | Any step of one process that balances references keeps the core: reference counts, what each process relies on, openings, and bytes in order. |
| PipeCore.CoreNext | src/kernel/vfs/fd.c:35-158 | Every step keeps the core, F_SETFL with any flags included. |
| PipeRuns.RunCore | src/kernel/vfs/fd.c:35-158 | It holds in every state of every run. |
| PipeRuns.NoLostWakeup | src/kernel/vfs/pipe.c:107-173 | A process asleep in pipe_read faces an empty ring with a live writer, one asleep in pipe_write a full ring with a live reader, unless a wakeup on that pipe is still to come. |
| PipeRuns.NonblockNeverSleeps | src/kernel/vfs/pipe.c:101-174 | Over every run, a process asleep in a pipe found O_NONBLOCK (0x800) clear when its read or write began, and has been in that read or write since. |
| PipeRuns.PassIs | src/kernel/vfs/pipe.c:107-173 | One pass of the loop among other processes: which bytes move, that nothing else changes, and that it sleeps exactly at an empty ring with a writer or a full one with a reader. |
| PipeRuns.StreamIntact | src/kernel/vfs/pipe.c:81-174 | Over every run, bytes delivered followed by the ring are the bytes accepted, in order; the ring holds at most 511. |
| PipeRuns.InFlightSafe | src/kernel/vfs/fd.c:263-285 | While a process is inside a read or write, its slot is referenced, is the opening it started with, and no close of it has run or is pending. |
| PipeRuns.ClosedOnce | src/kernel/vfs/fd.c:141-158 | The driver's close runs at most once per opening, and has run exactly when the opening is in no slot and no process is about to run it. |
| PipeRuns.RecycledUnreferenced | src/kernel/vfs/fd.c:35-49 | A slot is free for a new descriptor if and only if no process refers to it. |
| PipeRuns.EndCount | src/kernel/vfs/pipe.c:57-79 | With no creation or close in progress, a pipe's readers count is 1 exactly while a read descriptor of it is referenced, and likewise for writers. |
| PipeRuns.FreePipeUnreferenced | src/kernel/vfs/pipe.c:57-79 | A pipe that is not in use has no descriptor and no sleeper. |
| PipeRuns.NeverStuck | src/kernel/vfs/pipe.c:214-236 | Every process in the middle of an operation has an enabled step: no reachable state is left out by the step relation. |
| PipeRuns.HeldUsable | src/kernel/vfs/fd.c:51-158 | In every reachable state an idle process can read, write, share, close and set flags on any descriptor that it holds. |
| PipeRuns.Misled | src/kernel/vfs/pipe.c:176-197 | A pipe is made, its read end gets O_NONBLOCK and is closed: then a reader is counted though there is no read end, and no writer though the write end is open. |
| SedRegex.TryIff | src/user/sed.c:326-386 | A result of the matcher is the end of a genuine match with those captures; failure means that there is no match at all from there. |
| SedRegex.Greedy | src/user/sed.c:357-378 | The match taken gives a starred atom its longest run of at most 255 occurrences from whose end the rest can match. |
| SedRegex.MatchesIffTrace | src/user/sed.c:326-386 | The recursive meaning of code agrees with cutting the text into one piece per instruction. |
| SedRegex.GroupSpan | src/user/sed.c:341-356 | What a group captured are the positions of its two marks. |
| SedMeaning.MatchesReads | src/user/sed.c:298-386 | A match is a way to cut the text so that each piece is what its instruction asks for: a literal, any byte but a newline, a member of the class, the text that stands between the two marks of the group referred to, 0 to 255 of these in a row, an anchor at its place. Each group's capture is the place of its marks. |
| SedMeaning.TryReads | src/user/sed.c:298-386 | The matcher returns the end of such a cut with the groups at their marks, and -1 if and only if there is none. |
| SedMeaning.BackrefIs | src/user/sed.c:312-320 | A back-reference takes exactly a text that repeats its group, and nothing if the group has not been closed. |
| SedRegex.TryMatch | src/user/sed.c:326-386 | The method that edits the captures in place computes the function, and a failed attempt leaves the captures as they were. |
| SedCompile.CompileClass | src/user/sed.c:160-197 | Succeeds exactly when a closing bracket follows and a table entry is left; the set is that of the listed members and ranges, complemented after "^". |
| SedCompile.CompileRegex | src/user/sed.c:205-284 | Gives the code of the turn-by-turn definition or refuses with it (`SedAccepts.Accepts` says what that is), and all code it gives is well formed: END last and only there, groups opened once and closed later, at most 256 instructions. |
| SedPattern.PatternCompiles | src/user/sed.c:205-284 | Round trip: any regular expression in any spelling (characters alone or behind a backslash, a star where there is nothing to repeat, "^" not in first place, "$" not in last place, dot, brackets, back-references, nested groups, stars, anchors), written out before any delimiter, compiles to its own code if and only if 9 groups, 8 brackets and 256 instructions suffice. |
| SedAccepts.Accepts | src/user/sed.c:205-284 | Conversely, a text is accepted if and only if it writes out such an expression for which there is room. |
| SedAccepts.ReadRe | src/user/sed.c:205-284 | The induction behind it: from any state the compiler is in, an accepted text reads as an expression up to its end or the end of the group. |
| SedBrackets.SetIs | src/user/sed.c:160-197 | A bracket expression stands for the members and ranges it is written with, negated for all other bytes. |
| SedBrackets.EveryBody | src/user/sed.c:160-197 | Every body can be read as such a list. |
| SedPattern.RunRe | src/user/sed.c:205-284 | The induction behind it, for an expression anywhere in a pattern: groups are numbered by opening, stars mark the atom before them, the stack returns to what it was. |
| SedPattern.ClassIs | src/user/sed.c:160-197 | A bracket expression in its place denotes the set its body denotes alone. |
| SedPattern.PlainMatches | src/user/sed.c:298-386 | A pattern of plain characters matches exactly its own text, with no captures. |
| SedSubst.Leftmost | src/user/sed.c:391-404 | The search returns the leftmost start at which any match exists, and nothing only if there is no match anywhere; stopping early behind "^" misses none. |
| SedSubst.RegexSearch | src/user/sed.c:391-404 | The loop computes that search, captures included. |
| SedSubst.HitsOrdered | src/user/sed.c:588-680 | The matches found lie one behind the other inside the line and do not overlap. |
| SedCases.CaretTwice | src/user/sed.c:588-612 | The expression ^a is found twice in aa under g. |
| SedCases.EmptyBehind | src/user/sed.c:588-680 | The expression a* is found three times in ab under g, once as the empty string directly behind the a. |
| SedSubst.AmpersandLine | src/user/sed.c:578-692 | s/re/&/ leaves every line alone under every combination of flags. |
| SedReplace.ExpandsTo | src/user/sed.c:616-650 | A replacement is what its items stand for: "&" the match, \1 to \9 the text of that group or nothing, \n a newline, any other byte behind a backslash itself, and every other byte itself. |
| SedReplace.EveryReplacement | src/user/sed.c:616-650 | Every replacement can be read as such items, with or without a lone backslash at the end. |
| SedReplace.LineIs | src/user/sed.c:578-692 | Replaced are: without flags the first match, with g all, with N the Nth, with N and g the Nth and all behind it. |
| SedReplace.LastReplaced | src/user/sed.c:578-692 | The new line from its end: what stands behind the last match replaced stays, before it stands what it became, and before that what the text in front of it becomes. |
| SedReplace.HitsAre | src/user/sed.c:588-612 | Each match is the leftmost in what is left of the line behind the one before (one byte further behind an empty one), and behind the last there is none. |
| SedSubst.DoSubst | src/user/sed.c:578-692 | The output is the line with exactly the selected matches replaced, the count is theirs, and -1 is returned exactly when the output would not fit; nothing is written past it. |
| PathNormalize.Normalize | src/kernel/vfs/namei.c:57-108 | Also with path and buffer the same array, the result is that of the component stack on the original string, errors included. |
| PathNormalize.NormalLeaves | src/kernel/vfs/namei.c:57-108 | The result names what is left when every ".." takes away the nearest name before it that is not taken away yet; it fails if and only if some name is longer than 63 bytes or does not fit behind those before it. |
| PathNormalize.CompsJoin | src/kernel/vfs/namei.c:57-108 | The components of a text are those of the parts around any slash. |
| PathNormalize.NormalIsClean | src/kernel/vfs/namei.c:57-108 | The result is "/" or proper names each behind one slash, with no empty, "." or ".." component, and fits the buffer. |
| PathNormalize.NormalIdempotent | src/kernel/vfs/namei.c:57-108 | Normalising again changes nothing. |
| PathNormalize.Absolutize | src/kernel/vfs/namei.c:375-394 | A relative path is put behind the working directory and normalised; too long exactly when the two do not fit (`PathNormalize.AbsoluteComps`: in components). |
| PathNormalize.AbsoluteComps | src/kernel/vfs/namei.c:375-394 | A relative path has the components of the working directory and then its own; an absolute one its own alone. |
| PathWalk.MountFind | src/kernel/vfs/vfs.c:290-339 | The active mount with the longest path that covers the given one at a component boundary. |
| PathWalk.ExactMount | src/kernel/vfs/namei.c:120-127 | Nothing is left of the path behind the mount point exactly when it is the mount point. |
| PathLaws.CoversNames | src/kernel/vfs/vfs.c:305-325 | Among normal paths a mount point other than "/" covers exactly those that begin with its names. |
| PathWalk.Step | src/kernel/vfs/namei.c:184-360 | One component: the reference on the directory is exchanged for one on the child or the mounted root, every way out drops it, and on a world at rest it is one step of the recursive resolution of the component list. |
| PathWalk.Follow | src/kernel/vfs/namei.c:258-351 | A link: every error gives back vnode and buffers; else the walk starts over from the normal form of the target's names, in the directory the link stands in if the target is relative, and the names behind the link (`PathWalk.LinkLeads`). |
| PathWalk.LinkLeads | src/kernel/vfs/namei.c:258-351 | On a world at rest a link at name n leads to the normal form of (nothing if its target begins with "/", else the n - 1 names before it) + the names of the target + the names behind it, or is too long exactly when that does not fit 127 bytes. |
| PathWalk.RedirectIs | src/kernel/vfs/namei.c:300-340 | The text composed in the buffer has those names and that length. |
| PathLaws.Follows | src/kernel/vfs/namei.c:184-360 | A pass goes from vnode to vnode as long as each name leads on: to the root of another mount at that place, else to what the driver finds and is no link to be followed. |
| PathLaws.StopsAt | src/kernel/vfs/namei.c:184-360 | Where it leads nowhere that is the result: ENOTDIR, ENOENT without a lookup, the driver's error, or where the link leads. |
| PathWalk.LookupWalk | src/kernel/vfs/namei.c:132-367 | Whatever other processes do: exactly one reference is handed over on success and none on an error, every scratch buffer comes back, and the walk ends after at most four links. While nothing changes: the result, errors included, is that of resolving the list of components recursively through mounts and links. |
| PathLaws.FourPasses | src/kernel/vfs/namei.c:157-358 | A pass that ends is the result if it is among the first four; behind the fourth link it is ELOOP. |
| PathWalk.SplitLast | src/kernel/vfs/namei.c:421-471 | The parent's normal path and the last name. |
| Mounts.StepOk | src/kernel/vfs/vfs.c:91-285 | Mounting, unmounting, finding, looking up, acquiring and releasing keep the reference invariant under any interleaving. |
| Mounts.MountsPinned | src/kernel/vfs/vfs.c:229-285 | In every reachable state a vnode somebody refers to is allocated and its mount has its root and is not free. |
| Mounts.PathsDistinct | src/kernel/vfs/vfs.c:152-225 | Over every run no two entries that are mounted, or being mounted, have the same path. |
| Mounts.MountIff | src/kernel/vfs/vfs.c:165-200 | A free entry can be taken for a path, with any number of slashes behind it, if and only if no entry in use has that path; it is then stored without them. |
| Mounts.PathsStripped | src/kernel/vfs/vfs.c:165-200 | Over every run the path of an entry in use ends in no slash unless it is "/". |
| Mounts.SamePoint | src/kernel/vfs/vfs.c:164-178 | A path names the same mount point with and without a slash at its end. |
| Mounts.RootStays | src/kernel/vfs/vfs.c:229-285 | Over every run the root mount, once active, stays. |
| Mounts.UmountAlone | src/kernel/vfs/vfs.c:229-285 | umount of an active mount other than "/" succeeds if and only if no process refers to any vnode of that mount; then the entry is free, its root given back and nothing else changed. |
| Mounts.FoundActive | src/kernel/vfs/vfs.c:290-339 | vfs_mount_find gives exactly active mounts with a root, each with one reference more on it. |
| Mounts.MountingEnds | src/kernel/vfs/vfs.c:209-225 | A mount that was begun can always be made active, and given up exactly as long as it has no root. |
| Mounts.FreeUnreferenced | src/kernel/vfs/vfs.c:91-124 | A vnode slot is free if and only if no process refers to it and it is no mount's root. |
| FatCache.Fat.Load | src/kernel/vfs/vfat.c:90-111 | Evicting and loading leaves the table's view alone. |
| FatCache.Fat.Get | src/kernel/vfs/vfat.c:114-124 | Reads the low 28 bits of that entry of the view. |
| FatCache.Fat.Set | src/kernel/vfs/vfat.c:127-144 | Changes exactly one entry's low 28 bits and keeps its top four. |
| FatCache.Fat.Flush | src/kernel/vfs/vfat.c:147-156 | The view stays, and afterwards FAT1 on disk equals it; nothing outside the tables changes. |
| FatCache.FlushedEverywhere | src/kernel/vfs/vfat.c:90-156 | If the copies agreed before, all of them read as the view after a flush. |
| FatLayout.FileByteStands | src/kernel/vfs/vfat.c:470-519 | Byte b of sector s of a file's cluster i is byte b of that sector of the cluster, and cluster 2 is the first of the data area (`FatLayout.ClusterStands`). |
| FatChains.AllocCluster | src/kernel/vfs/vfat.c:159-172 | The first free cluster, marked as an end of chain; ENOSPC exactly when there is none. |
| FatChains.FreeListIs | src/kernel/vfs/vfat.c:159-172 | The list of free clusters holds exactly those whose entry is 0, each once, ascending. |
| FatChains.FreeTaken | src/kernel/vfs/vfat.c:159-172 | Taking the first free cluster takes the head off that list. |
| FatChains.FreeChain | src/kernel/vfs/vfat.c:175-185 | Computes the release function on any table whose links are in range, cyclic or not, and ends. |
| FatChains.FreedChain | src/kernel/vfs/vfat.c:175-185 | Releasing a chain frees exactly its clusters. |
| FatChains.FreedOthers | src/kernel/vfs/vfat.c:175-185 | Chains apart from it survive. |
| FatChains.FreedMet | src/kernel/vfs/vfat.c:175-185 | On a cyclic table, too, only clusters met on the way from the first are freed. |
| FatChains.ChainExtend | src/kernel/vfs/vfat.c:555-615 | Linking a free cluster behind the last one makes the chain one longer, still without a cycle, and leaves all others. |
| FatChains.SharedTail | src/kernel/vfs/vfat.c:470-519 | Two chains that share a cluster share all that follows, so chains from heads outside each other are disjoint. |
| FatChains.ChainUnique | src/kernel/vfs/vfat.c:470-519 | The clusters of a chain are determined by its first. |
| FatFile.Write | src/kernel/vfs/vfat.c:523-637 | From the table before: the chain gets the lowest free clusters, as many as are needed for offset and count or as there are; the count is full exactly when there are enough, else it ends with the last cluster, and ENOSPC comes exactly when the offset is out of reach. Exactly the accepted bytes stand at the offset, every other byte of the new chain is what its cluster held before; the size is the 32-bit maximum. In the directory entry the size is the new one if it grew and the two halves of the first cluster are set if it is new; every other byte of that sector, and of the rest of the data area, is as before. |
| FatFile.OutcomeIs | src/kernel/vfs/vfat.c:523-637 | The count is full if and only if the free clusters suffice, ENOSPC if and only if they do not reach the offset, 0 only for 0 bytes, and the chain then reaches the offset, also for a count of 0. |
| FatFile.NeedIsLeast | src/kernel/vfs/vfat.c:551-615 | The number of clusters needed reaches the last byte and one less does not. |
| FatFile.OldBytes | src/kernel/vfs/vfat.c:523-637 | Bytes of the file outside the written range keep their place and value. |
| FatFile.GapReads | src/kernel/vfs/vfat.c:551-570 | Reading what lies between the old end and the offset gives zeros if and only if the clusters that the old table has ready for it held zeros on the old disk. |
| FatCases.GapOfSevens | src/kernel/vfs/vfat.c:523-637 | A byte written at 5 of an empty file, where the first free cluster is full of sevens: the five bytes before it read as 7. |
| FatCases.NothingWritten | src/kernel/vfs/vfat.c:523-637 | No bytes written at 5 of an empty file: the count is 0, the size 5, and five sevens are read. |
| FatFile.Read | src/kernel/vfs/vfat.c:470-519 | Returns the chain's bytes from the offset on, min(n, size - offset) of them, not cut if offset + n reaches 2^32, and nothing of a file without a cluster; the table and the files stay. |
| FatFile.WriteThenRead | src/kernel/vfs/vfat.c:470-637 | Reading any part of what was written gives back exactly those bytes. |
| FatFile.OthersUntouched | src/kernel/vfs/vfat.c:523-637 | Every other chain is still a chain, apart from the written one, with every byte the same. |
| RomfsNodes.Builder.AddNode | tools/mkromfs/mkromfs.c:82-139 | The node table represents the directory tree exactly, in preorder, one sibling chain per directory; it succeeds exactly when 512 nodes suffice. |
| RomfsNodes.Builder.ScanDir | tools/mkromfs/mkromfs.c:141-183 | A directory's entries become the children of its node in the order read, and no earlier node changes. |
| RomfsNodes.KidsMore | tools/mkromfs/mkromfs.c:103-115 | Linking a new node at the end of the sibling chain adds exactly that entry to the directory represented. |
| RomfsImage.OffsetsGrow | tools/mkromfs/mkromfs.c:187-196 | Entries do not overlap and offsets grow strictly with the node number, hence along every sibling chain. |
| RomfsImage.OffsetsAligned | tools/mkromfs/mkromfs.c:66-76 | Entries stand at multiples of four. |
| RomfsImage.AssignOffsets | tools/mkromfs/mkromfs.c:187-196 | The 32-bit running sum gives each node its offset modulo 2^32. |
| RomfsImage.WriteImage | tools/mkromfs/mkromfs.c:200-262 | An image comes out exactly when it fits: the buffer then holds superblock and entries, field by field, with nothing between or behind them, and is unchanged past the end. It is refused exactly when its size modulo 2^32 exceeds the buffer. |
| RomfsImage.SwapToBigEndian | tools/mkromfs/mkromfs.c:278-291 | The result is the image of the same table for a big-endian target: only header words are turned. |
| RomfsLayout.EntryIs | src/kernel/vfs/romfs_format.h:61-82 | The entry of a node, field by field: next sibling, type, size, first child, length of the name, name with NUL, data at a multiple of four. |
| RomfsLayout.SuperIs | src/kernel/vfs/romfs_format.h:27-34 | The superblock: magic number, size, number of entries, root at 16. |
| Romfs.RepBytes | tools/mkromfs/mkromfs.c:71-76 | The bytes of a tree's entries add up over its parts. |
| Romfs.Pack | tools/mkromfs/mkromfs.c:354-421 | An image of the tree comes out, in either byte order, if and only if the tree has at most 512 nodes and its entries fit; a tree that does not fit is refused if and only if it has more nodes or its size modulo 2^32 does not fit either. |
| Romfs.TooLargeForTest | tools/mkromfs/mkromfs.c:200-214 | One file of 4 GiB - 64 bytes: the size is 2^32, which no buffer refuses. |
| Romfs.Mount | src/kernel/vfs/romfs.c:87-103 | Finds the magic number and a root that stands for the packed tree. |
| Romfs.KidsFind | src/kernel/vfs/romfs.c:108-136 | Following the sibling chain finds the entry of that name in the directory packed, or none exactly when there is none. |
| Romfs.LookupNode | src/kernel/vfs/romfs.c:108-136 | The loop finds what the chain holds; its bound of 1024 turns is never reached. |
| Romfs.Lookup | src/kernel/vfs/romfs.c:108-136 | A name is found if and only if the packed directory has it, with that entry's type, size and contents. |
| RomfsLayout.EntryFound | src/kernel/vfs/romfs.c:108-136 | A name stands for the first entry of the listing that has it. |
| Romfs.LookupPath | src/kernel/vfs/romfs.c:108-136 | Round trip: any path looked up in the image leads to what the packed tree has there, no more and no less. |
| Romfs.Read | src/kernel/vfs/romfs.c:141-156 | Returns min(n, size - offset) bytes of the packed contents from the offset on; EISDIR exactly for directories. |
| Romfs.Readlink | src/kernel/vfs/romfs.c:213-225 | Returns the packed target, cut to 255 bytes and to the buffer; EINVAL exactly for anything else. |
| PushEnv.Env.Set | src/user/push.c:239-273 | On success the map is updated: the variable stands last, value and export flag as asked, all others keep theirs; it fails exactly when 64 other variables are there or 1536 bytes do not hold it, after compaction, and the key is then gone from the map. |
| PushEnv.SetAndLost | src/user/push.c:239-273 | A variable is set, found, set anew to 1536 bytes, which fails, and is not found any more. |
| PushEnv.Env.Compact | src/user/push.c:224-236 | Moving every string down over itself in place leaves the variables alone and the pool without gaps. |
| PushEnv.CompactStep | src/user/push.c:224-236 | One move of possibly overlapping bytes keeps the strings already moved and those still to come. |
| PushEnv.WithVarMap | src/user/push.c:239-273 | env_set is map update; every other key keeps its value and its flag. |
| PushEnv.DroppedMap | src/user/push.c:275-280 | env_unset is map deletion. |
| PushEnv.DroppedAt | src/user/push.c:275-280 | The other variables keep their order. |
| PushEnv.Env.Unset | src/user/push.c:275-280 | Deletes the key from the map and leaves all else, whether it was there or not. |
| PushEnv.Env.Get | src/user/push.c:216-222 | Found exactly when the map has the key, with its value. |
| PushEnv.Env.BuildEnvp | src/user/push.c:282-289 | Lists each exported variable as KEY=VALUE, in the order of the table, as many as fit before the terminator, and nothing else. |
| PushEnv.Listed | src/user/push.c:282-289 | An exported variable is listed behind exactly the exported ones before it in the table. |
| PushEnv.ListedOnly | src/user/push.c:282-289 | A string is listed if and only if it is KEY=VALUE of an exported variable. |
| Math64.UDivMod | src/common/math.c:23-38 | Quotient and remainder for every 64-bit n and every d but 0: the shifted remainder never loses a bit. |
| Math64.DivDi3 | src/common/math.c:50-58 | The quotient truncated toward zero, with two's-complement wrap. |
| Math64.ModDi3 | src/common/math.c:60-68 | The remainder that belongs to it. |
| Math64.TruncRem | src/common/math.c:50-68 | The two fit together: a = q*b + r, r is smaller than b and has the sign of a, and the quotient is exact except for -2^63 / -1. |
| Math64.MulDi3 | src/common/math.c:126-139 | The product modulo 2^64. |
| Math64.Halves | src/common/math.c:126-139 | Why 32-bit halves suffice for it. |

## Left out

- I/O errors of block devices, timestamps, owners, changing a mode, statfs, procfs, devfs and tmpfs: they do not touch the state proved about.
- Symbolic links, readdir and chmod in UFS: unlink would take the target text of a symlink for block pointers, so `FsOk` covers regular files and directories; the walk in `PathWalk` covers following links.
- Removing a directory reclaims neither its inode nor its block, as in the code; `UfsOps.Unlink` says so.
- Directories of 4 GiB and more, whose block count wraps, and unlinking "." or "..", which path resolution never asks of the driver (`DirVnode` and `!IsDots`).
- ufs_mount's checks, and of mkufs all but the state of an empty volume: the geometry is taken as valid.
- The lock of a struct file in `fd.c`, which only removes interleavings; reference counts in the protocol are unbounded numbers; signals appear as a step that wakes one sleeper; vfs_fd_open's path lookup is one step.
- NoLostWakeup: behind an F_SETFL that sets a flag on a read end only the core is stated; the ends' counts, and with them who is woken, mean nothing there. Taking and dropping the reference in vfs_fd_fcntl and its work are one step.
- LookupWalk: what the path leads to is stated for a tree of files and mounts that does not change during the walk; under concurrent changes only references, buffers and the end of the walk are. The starting link count is 0, as all callers pass it.
- Mounts: taking a free vnode and setting its mount are one step (in between, the walk's reference on the directory keeps the mount); flags, the limit on a mount point's length and the contents of vnodes are not modelled; the longest-prefix search over the paths is `PathWalk.MountFind`.
- FAT directories, long and short names, mounting and statfs; `FatFile.Write` takes the position of the directory entry as given and outside the file and all free clusters.
- FatFile.Read: of a file without a cluster but with a size, read beyond the first cluster's span, only where the reserved table entry is an end-of-chain mark, as formatting leaves it; else the driver would follow that entry, perhaps out of the table.
- Addresses, commands, the table of 16 compiled expressions and the input loop of sed.
- Romfs: readdir and its paging, statfs, and names that the host hands out twice in one directory (the first is found). Host files do not change between the two passes and their paths fit mkromfs's buffer. The dump mode is left out.
- PushEnv.Env.Set: the value must not point into the pool itself, where compaction would move it; importing the initial environment and expansion of variables are left out.
- The three shift helpers of math.c: one-line case splits on the shift count, easier than what is proved.
- Drivers, scheduler, memory allocators, system calls and all other user programs.
