# Embext, an ext2 driver: model and proofs

A Dafny model of the ext2 driver in `src/embext.c` and `src/embext_directory.c` and of the MD5 code in `test/hash.c`.
The driver keeps one 512-byte write-back buffer for each open file and one system buffer for each mounted filesystem;
the model keeps them too, as arrays of mutable objects, and the C functions are methods on those objects. What they
mean is stated on values: a volume is a sequence of sectors, and the volume an open file sees is the device overlaid
with its dirty buffer.

* `Bytes`, `BitMasks`, `Volumes`, `Handles`, `Buffer`: fields and bits of bytes, blocks of a device, the objects, the
  buffer.
* `OnDisk`: where pointers, file bytes, bits, descriptors and inodes lie, as byte offsets from the start of the
  partition.
* `PointerTree`, `TreeInvariant`, `BlockMap`, `FileContent`: the tree of 12 direct slots and three indirect trees, the
  mixed-radix lookup, the invariant that no block is reached twice, and the bytes of a file.
* `BlockGroups`, `Descriptors`, `Accounting`, `Allocator`, `Conservation`, `Superblocks`: bitmaps, replicated group
  descriptors and superblocks, counts and totals, and runs of allocations against a set of blocks.
* `Search`, `InodeAllocator`, `Growth`, `SelectBlock`, `FreedBlocks`, `Truncate`, `Exclusivity`: choosing and linking
  blocks, freeing them, and who owns a block over a run.
* `FlatFile`, `FileIO`, `FileWrite`, `FileRuns`, `BoundedRuns`: the reference of a byte sequence with a cursor, and its
  refinement by read, write and lseek, with enough free blocks and on a volume that fills up.
* `InodeRecord`, `InodeTable`, `Session`, `Turns`: inode records, their two address computations, close and reopen,
  truncating on open, and several files that take turns.
* `DirectoryRecords`, `DirectoryOffsets`, `Directory`, `Paths`: record chains and their offsets, appending and reading
  entries through the file stack, paths and the tree of directories.
* `Namespace`, `Creation`: the tree that a volume stores, looking a path up in it, and creating a file.
* `Powers`, `Mount`: powers, superblock copies and the geometry of the volume.
* `Md5Reference`, `Md5Vector`, `Md5`: RFC 1321, sections 3.1 to 3.5, one of its digests, and the streaming
  implementation.
* `ReadAsWritten`, `AsWritten`, and the members named `AsWritten` elsewhere: the code where it differs from the
  behaviour that its documentation describes, with the exact condition under which the two agree.

## Corrected in the model

The code is followed except in these places, where the model does what the code's own documentation or the rest of the
code calls for. The lemmas in `AsWritten`, `ReadAsWritten` and `Mount` say exactly when the code as written agrees.

* A chunk of a read or write ends with the 512-byte buffer, not with the filesystem block less one
  (`src/embext.c:99-101`).
* A new block is stored in the slot of the block index, not always in the first slot (`src/embext.c:764`). For an
  index behind the direct slots this means writing the pointer table that holds the slot.
* Bitmap blocks are scaled to sectors, and the number of a block is `first data block + group * blocks per group + bit`
  everywhere (`src/embext.c:350-354`, `348-352`, `523-525`).
* A group descriptor is written back to every copy (`src/embext.c:271-277`), as lines 239-246 promise.
* Truncation reads slot 14 for the triple tree and loads the innermost table from `block2`
  (`src/embext.c:588`, `596`).
* The test for powers has its arguments in the order of its definition (`src/embext.c:831`, `838`).

## Kept as it is

In these places the code does not do what it reports, and the model follows the code. The named members say when.

* On a full volume the zero writes of an append fail unnoticed, and the new record goes over the last block of the
  directory (`src/embext_directory.c:76-87`): `DirectoryRecords.AppendTheorem`, `Creation.CreatedFound`.
* A name of 256 bytes or more is stored with the low byte of its length (`src/embext_directory.c:67`, `83`): the same.
* A file that is truncated on open is not marked for a flush, so a close without a write leaves the old record, which
  points to free blocks (`src/embext.c:1021-1026`, `1051`): `Session.TruncateAndClose`, `Session.TruncateRunClose`.
* When the directory for a new file is missing, its inode stays allocated (`src/embext.c:926-956`): `Creation.Create`.

## Model

| member | source | states |
|---|---|---|
| Handles.BlockDevice.Read | src/block.h:75-85 | Sector read: copies the sector, or fails and leaves the buffer when the number is beyond the device. |
| Handles.BlockDevice.Write | src/block.h:87-97 | Sector write: replaces that sector only, or fails and changes nothing. |
| Buffer.StoreBuffer | src/embext.c:66-74 | The device gets the buffered sector; what the file sees as the volume (device overlaid with the dirty buffer) is unchanged. |
| Buffer.LoadBuffer | src/embext.c:76-86 | A dirty sector reaches the device first; the buffer then holds the addressed sector and the volume as seen by the file is unchanged. |
| Buffer.ReadBuffer | src/embext.c:88-91 | Returns the addressed slice of the buffered sector. |
| Buffer.WriteBuffer | src/embext.c:93-97 | Exactly the addressed bytes of the volume as seen by the file change; the device does not. |
| PointerTree.PathOfIndex | src/embext.c:714-748 | Every block index below 12+n+n*n+n*n*n yields a leaf path of the pointer tree, and the path gives the index back. |
| PointerTree.IndexOfPath | src/embext.c:714-748 | Every leaf path is the path of an index below the limit and of that index only: with PathOfIndex, a bijection. |
| PointerTree.LookupIsLeaf | src/embext.c:714-751 | The divisions of the driver index the depth-first list of the leaves of the tree. |
| BlockMap.BlockFromOffset | src/embext.c:714-751 | Returns the abstract tree lookup of the block index of the offset, or -1 beyond the largest file; the volume is unchanged. |
| BlockMap.LoadTriple | src/embext.c:735-741 | Three loads through the buffer follow three digits of the tree. |
| BlockMap.CubeFits | src/embext.c:735 | n*n*n is the cube in 32 bits if and only if n <= 1625, that is for block sizes up to 4 KiB. |
| TreeInvariant.SetIndirect | src/embext.c:762-764 | Overwriting one entry of a parent table sets exactly one leaf of a tree without sharing. |
| TreeInvariant.LeafSetKeepsTree | src/embext.c:762-764 | A leaf slot filled with a block from outside keeps the tree free of shared blocks. |
| FileContent.PatchFile | src/embext.c:1131-1135 | Patching one sector of a present block changes those bytes of the file and no other byte of it. |
| FileContent.DifferentLeaves | src/embext.c:714-751 | Two block indices never lead to the same block. |
| OnDisk.PointerPlace | src/embext.c:719-741 | Pointer a of a table is the little-endian word at byte 4a of its block. |
| OnDisk.FilePlace | src/embext.c:714-774 | Byte k of a file is byte k mod bs of the block with index k / bs. |
| OnDisk.DescriptorPlace | src/embext.h:89-98 | The descriptor of group g is the record of 32 bytes at 32g behind the block of the superblock, its fields at bytes 0, 4, 8, 12, 14 and 16. |
| BlockGroups.DecodeEncode | src/embext.h:89-98 | A group descriptor survives being written to and read from its 32 bytes. |
| BlockGroups.EncodeDecode | src/embext.h:89-98 | The 32 bytes survive being read as a descriptor and written back. |
| BitMasks.BitIsDigit | src/embext.c:358-368 | Bit j of a number is the digit of 2 to the j of its value. |
| BitMasks.MaskTest | src/embext.c:358-364 | On bytes it is the test with the mask 1 << j. |
| BitMasks.MaskSet | src/embext.c:358-369 | Setting and clearing a bit are the or with that mask and the and with its complement. |
| OnDisk.BlockBit | src/embext.c:348-360 | A block is allocated if and only if, with its distance from the first data block split into group and rest, bit rest mod 8 of byte rest / 8 of the bitmap of that group is 1. |
| OnDisk.InodeBit | src/embext.c:421-437 | The same for an inode, with its number less one. |
| BlockGroups.ClearBitsFlip | src/embext.c:374-385 | Changing one bit moves the number of clear bits of a bitmap by exactly one. |
| BlockGroups.ClearBitsPositive | src/embext.c:411-430 | A bitmap has a clear bit if and only if its count of clear bits is positive. |
| Descriptors.GetBgDescriptor | src/embext.c:212-237 | Fails for a group that does not exist; otherwise returns the descriptor of the primary table. |
| Descriptors.WriteBgDescriptor | src/embext.c:239-280 | With the documented write-back: every copy of every table holds the new descriptor of the group, and no other sector changes. |
| Descriptors.WriteBgDescriptorAsWritten | src/embext.c:252-280 | As written: the same result code, and the device is not modified. |
| Descriptors.WriteThenGet | src/embext.c:212-280 | After a write a get returns what was written, other groups are as before, and all copies agree. |
| AsWritten.ChangeAllocated | src/embext.c:239-396 | With the descriptor writes lost, allocating or freeing a block leaves the accounts consistent if and only if it is refused, that is if the block was in that state before. |
| AsWritten.BitAloneBreaks | src/embext.c:338-396 | A bit that changes while the descriptors stay never agrees with the count of its group. |
| Accounting.StepKeepsVolume | src/embext.c:338-396 | One bit changing together with its descriptor keeps every group count equal to the clear bits and moves the matching total by one. |
| Accounting.VolumeOkFrame | src/embext.c:338-396 | Writes outside bitmaps and descriptor tables leave all accounts as they are. |
| Allocator.ChangeAllocated | src/embext.c:338-396 | Refused with -1 and nothing changed exactly when the block is in that state already; otherwise that bit alone changes, counts and totals follow, and the 16-bit count of directories of its group moves by one exactly for a block of a directory. |
| Allocator.CountBounds | src/embext.c:374-385 | The 16-bit counts can neither underflow nor overflow. |
| Allocator.BlockOfBit | src/embext.c:523-525 | With one mapping based on the first data block, the number built from group and bit splits back into them. |
| Conservation.RunChanges | src/embext.c:338-396 | Any sequence of allocations and frees behaves, results included, like the same sequence on a set of blocks; counts stay exact; refused operations leave the device alone. |
| Conservation.ChangeAndBack | src/embext.c:338-396 | A change and then the opposite one: both succeed or both are refused, and allocated blocks and totals are as at the start. |
| Search.MostFree | src/embext.c:405-412 | Finds the first group with the largest free count. |
| Search.FindClear | src/embext.c:421-432 | The byte-then-bit search returns the lowest clear bit, or none exactly when all are set. |
| Search.SearchSucceeds | src/embext.c:433-450 | With a positive count the search cannot fail: the branch that "should never happen" is unreachable. |
| Search.AllocateBlock | src/embext.c:455-534 | 0 exactly when no block is free; otherwise the lowest free block of the first group with most free blocks is taken, and counted as one of a directory exactly for a directory. |
| InodeAllocator.AllocateInode | src/embext.c:398-453 | -1 and no change exactly when no inode is free (never through the EIO branch); otherwise the lowest clear bit of the best group is set, all other bits stay, counts follow, besides the accounts only superblock copies are written, and every copy holds the new totals. |
| Superblocks.FlushSuperblock | src/embext.c:312-322 | In the first sector of every copy bytes 12 and 16 hold the free blocks and free inodes, bytes 90 and 91 the block number, the other bytes below 264 those of the record, and the rest zeros; no other sector changes. |
| Superblocks.FlushInStep | src/embext.c:434-442 | The flush behind the allocation of an inode touches no bitmap, descriptor or inode table, so the accounts stay consistent. |
| InodeAllocator.NumberSplits | src/embext.c:434-435 | The inode number built from a group and a bit is split back into them when the inode is opened. |
| InodeAllocator.SplitBuilds | src/embext.c:637-638 | Every inode number is rebuilt from the group and bit it is split into. |
| Growth.TakenBlock | src/embext.c:455-534 | A newly allocated block was allocated to nobody, and taking it changes neither this file nor any other. |
| Growth.LinkDirect | src/embext.c:764 | Linking a block in a direct slot adds that leaf and keeps every byte the file had. |
| Growth.LinkIndirect | src/embext.c:764 | The same for a slot in an indirect table, writing only that table. |
| SelectBlock.GrowFile | src/embext.c:761-768 | Fails exactly when the volume is full; otherwise exactly one block, which was free, is taken and becomes the leaf of the wanted index; other leaves and bytes, the blocks of other files and all inode records are unchanged. |
| SelectBlock.SelectBuffer | src/embext.c:753-774 | The sector under the cursor is in the buffer; -1 exactly when its block is missing and the file is not writable or the volume is full. |
| AsWritten.FirstSlotIff | src/embext.c:764 | Storing the new block in the first slot is right if and only if the block index is 0. |
| AsWritten.FirstBlockLost | src/embext.c:764 | For any other index the first block of the file is lost and the wanted block is still missing. |
| AsWritten.BitSectorIff | src/embext.c:350-356 | Using the bitmap block number as a sector number is right only for block 0. |
| AsWritten.NumberIff | src/embext.c:523-525 | The number given to a found bit is right if and only if the first data block is 1. |
| AsWritten.BitNumberIff | src/embext.c:348-352 | The group and bit computed for a block number are right if and only if the first data block is 0. |
| AsWritten.FoundBitMissed | src/embext.c:523-526 | Together they never touch the bit that the search found. |
| FileRuns.WriteThenRead | src/embext.c:1063-1222 | Writing, seeking back and reading returns the data that was written. |
| FileIO.Lseek | src/embext.c:1174-1222 | The new position is set and its 32-bit value returned, or -1 and no change when it would be negative, too large, or the origin is unknown. |
| FileIO.ReadChunk | src/embext.c:1079-1093 | One round delivers the next bytes of the content up to the end of the sector, the request or the file. |
| FileIO.Read | src/embext.c:1063-1099 | Returns exactly content[cursor .. min(cursor+count, size)] and advances the cursor; nothing else changes; the loop ends. |
| FileWrite.WriteChunk | src/embext.c:1124-1140 | One round puts the next bytes into one sector and fails exactly when its block is missing and cannot be taken. |
| FileWrite.Write | src/embext.c:1101-1145 | The data replaces the slice at the cursor (or the end, in append mode) and extends the size; all of it fits if and only if the blocks it needs are free, else -1 is returned and what was written ends where the next block is absent and none is free. The inode is marked exactly when a byte was written or the size changed; other files and inode records are unchanged. |
| FileWrite.ProgressFull | src/embext.c:1126-1129 | Running out of blocks in the middle means the write needed more blocks than were free at its start. |
| FileRuns.RunOps | src/embext.c:1063-1222 | Any run of seeks, reads and writes, in place or growing the file, gives the outputs, content and cursor of the same run on a byte sequence while free blocks cover what is missing up to a bound, with any number of blocks left over for others; the inode is marked exactly when bytes moved; other files and inode records are unchanged. |
| FileRuns.BudgetKept | src/embext.c:1101-1145 | What a write takes from the free blocks it no longer has to take later, so the condition for a run is kept by every write. |
| FileRuns.InPlaceFunded | src/embext.c:1101-1145 | In-place writes on a file whose blocks are mapped meet that condition without any free block. |
| FileRuns.SmallFileFunded | src/embext.c:1101-1145 | Twelve free blocks meet it for a file of up to twelve blocks. |
| BoundedRuns.RunSolid | src/embext.c:1063-1222 | On a volume that may fill up, and in append mode as well: any run, failing writes included, gives the outputs, content and cursor of the same run on a byte sequence that cannot grow beyond the bytes of its own and the free blocks. |
| BoundedRuns.PutWithin | src/embext.c:1101-1145 | A write puts exactly the bytes below that limit, and the limit stays. |
| BoundedRuns.ExactKept | src/embext.c:1101-1145 | A file without holes or blocks behind its end stays one, and each block that its size newly counts is one free block fewer. |
| BoundedRuns.EmptySolid | src/embext.c:962-984 | A file without blocks can have exactly what the free blocks hold, up to twelve blocks. |
| ReadAsWritten.ChunkFits | src/embext.c:99-101 | The chunk bound as written keeps the copy inside the buffer if and only if the whole request ends in the sector under the cursor. |
| ReadAsWritten.OverrunExample | src/embext.c:99-101 | At the start of a file with 1 KiB blocks a request of 600 bytes is copied at once, past the buffer, and of 1200 bytes 1023 are. |
| ReadAsWritten.Read | src/embext.c:1063-1099 | The loop as written leaves the buffer exactly when the bytes it can deliver cross a sector; otherwise it reads what the byte sequence holds. |
| InodeRecord.InodeRoundTrip | src/embext.h:100-119 | An inode survives being written to and read from its 128 bytes. |
| InodeRecord.RecordFields | src/embext.h:100-119 | Every field by its offset in the 128 bytes. |
| OnDisk.InodePlace | src/embext.c:634-670 | The fields of inode n are the little-endian numbers at their offsets in record (n - 1) mod m of the table of group (n - 1) / m. |
| InodeTable.AddressesMeet | src/embext.c:295-302 | The block-wise address of the flush and the sector-wise address of the open name the same bytes, for inode sizes 128, 256 and 512. |
| InodeTable.RecordsDiffer | src/embext.c:295-302 | Records of different inodes do not overlap. |
| InodeTable.FlushInode | src/embext.c:282-310 | A dirty inode replaces its own record and nothing else; a clean one changes nothing. |
| InodeTable.OpenInode | src/embext.c:634-670 | -1 exactly for number 0 or a number beyond the count; otherwise the inode of that record. |
| InodeTable.FlushedRecord | src/embext.c:282-310 | After a flush the inode is read back as flushed, and every other inode as before. |
| InodeTable.ApartInodes | src/embext.c:282-310 | What a file does on its own changes no inode record. |
| Session.Close | src/embext.c:1035-1061 | The device is what the file saw, with its record written if the inode was marked. The file can be found again if and only if it was marked or its record was current. All other inodes and files are unchanged. |
| Session.Reopen | src/embext.c:634-670 | Opening the inode again gives the same bytes with the cursor at 0. |
| Session.RunAndClose | src/embext.c:1035-1222 | Any run and then close: the device holds the content of the run on the byte sequence, with a current record if and only if it was current before or bytes moved. |
| Session.RunCloseReopen | src/embext.c:881-1222 | Run, close, open: the bytes are those of the run on the byte sequence. |
| Session.TruncateAndClose | src/embext.c:1021-1061 | Closing right after a truncate leaves the old record, whose blocks are all free, unless the file was empty. |
| Session.TruncateRunClose | src/embext.c:1021-1145 | Truncate, any run on up to twelve blocks, close: the record is current if and only if a byte was written or there was nothing to truncate. |
| Turns.TakeTurn | src/embext.c:881-1222 | One of several files is opened, used and closed: its bytes and outputs are those of its run on a byte sequence, all other files have the same bytes, and the free blocks still cover what all files may need. |
| Turns.TakeTurns | src/embext.c:881-1222 | The same for any number of turns of any files. |
| Turns.AsIfAlone | src/embext.c:881-1222 | In every order of the turns each file has the bytes and gives the outputs that it would have and give alone. |
| Turns.AdmittedIff | src/embext.c:1101-1145 | Turns are within their bounds in one order if and only if every file is within its own. |
| FreedBlocks.FreedSlotsNoDup | src/embext.c:536-620 | In a tree without sharing no block is freed twice. |
| FreedBlocks.FreesAllIffPrefix | src/embext.c:549-613 | Every block of the tree is freed if and only if every pointer table is a nonzero prefix followed by zeros. |
| Truncate.FreeTable | src/embext.c:549-614 | The nested loops free exactly the listed blocks below a table, and then the table. |
| Truncate.TruncateFile | src/embext.c:536-620 | All 15 pointers, the size and the block count are zero and no other field of the inode changes, the buffer is clean, exactly the listed blocks became free, the free count rose by their number, the counts of directories fell by the blocks of their groups exactly for a directory, other files and inode records are unchanged. |
| Truncate.FreedExactly | src/embext.c:536-620 | With zero-terminated tables the freed blocks are the leaves that an index leads to and the tables on the way, each once. |
| AsWritten.TripleIff | src/embext.c:585-616 | As written the triple tree is freed if and only if its table lists the same blocks as block 0 up to the first zero and all tables it names are empty; where block 0 starts with a zero word, if and only if the tree is empty. |
| AsWritten.WrongTableMisses | src/embext.c:585-613 | With slot 14 read but the wrong table loaded, no leaf of the triple tree is in the whole list of freed blocks. |
| Exclusivity.OneOwner | src/embext.c:455-620 | No block is reachable from two pointer slots of any files, and every reachable block has its bitmap bit set. |
| Exclusivity.FreeUnreachable | src/embext.c:455-534 | A block whose bit is clear is reachable from nowhere. |
| Exclusivity.OtherKept | src/embext.c:338-774 | What one file does leaves any other file with its blocks and bytes. |
| Exclusivity.RunBlocks | src/embext.c:455-774 | Over every run of allocate, grow and truncate, from each state to the next: the blocks whose bit becomes set are none (full volume, truncate) or one, belonged to no file, and belong to the open file if it grew; files keep owning different allocated blocks, other files keep blocks and bytes. |
| DirectoryOffsets.HeaderBytes | src/embext_directory.h:4-9 | The fields of a record header in its 8 bytes. |
| DirectoryRecords.HeaderRoundTrip | src/embext_directory.h:4-9 | A record header survives being written to and read from its 8 bytes. |
| DirectoryRecords.ChainConcat | src/embext_directory.c:41-51 | Chains of records join, and so do the lists of their entries. |
| DirectoryRecords.SplitDirectory | src/embext_directory.c:56-71 | Splitting the last record keeps every block tiled and appends the entry to the list. |
| DirectoryRecords.NewBlockDirectory | src/embext_directory.c:72-88 | A new block with one record keeps every block tiled and appends the entry to the list. |
| DirectoryRecords.OverwrittenDirectory | src/embext_directory.c:76-88 | On a full volume the record goes over the last block, whose entries are lost. |
| DirectoryRecords.AppendTheorem | src/embext_directory.c:13-91 | The blocks stay tiled in every case; the list is the old one followed by (inode, name) if and only if there was room for the record and the name is shorter than 256 bytes. |
| DirectoryOffsets.AppendedRecords | src/embext_directory.c:53-88 | The offsets of the records after an append. With the lengths of the last and the new record rounded up to multiples of four: the last one shrinks and the new one follows it exactly when more than both is there, else it begins a new or the last block; its header is the inode, the rest of the block, the low byte of the length and type 0; everything before is unchanged. |
| DirectoryOffsets.AppendedAligned | src/embext_directory.c:53-88 | If every record begins at a multiple of four, every record does after an append. |
| Directory.ReadDir | src/embext.c:1303-1332 | Returns the entry at the cursor and moves to the next record; none exactly at the end. |
| Directory.ReadAll | src/embext.c:1303-1332 | Repeated calls return the entries of the record chain. |
| Directory.FindLast | src/embext_directory.c:39-51 | The walk along the record lengths ends at the last record of the block. |
| Directory.ZeroFill | src/embext_directory.c:76-80 | The chunked zero writes add one block of zeros when there is room for it, and nothing otherwise. |
| DirectoryRecords.AppendedListing | src/embext_directory.c:13-91 | In every case the listing is that of the entries that are left followed by the entry with its name cut to the length its byte can hold. |
| Directory.AppendToDirectory | src/embext_directory.c:13-91 | -1 and no change exactly when the size is zero or no multiple of the block size; otherwise the bytes of the directory become those AppendTheorem speaks of; records at multiples of four stay at such; the inode is marked for the close; other files and inode records are unchanged. |
| Paths.Strtok | src/embext.c:683-688 | Returns the next longest run without a separator and what is left. |
| Paths.SplitPath | src/embext.c:680-689 | The elements are the components of the first 1023 bytes, at most 100 of them. |
| Paths.ElementsCut | src/embext.c:680-689 | A lookup follows the components of the first 1023 bytes, the first 100 of them, and all if there are no more. |
| Paths.RootPath | src/embext.c:672-712 | A single separator leads to inode 2, and a name behind it to the first entry of that name there. |
| Paths.FindEntry | src/embext.c:696-706 | The readdir loop finds the first entry with the name, if there is one. |
| Namespace.LookupPath | src/embext.c:672-712 | The loops open one directory inode after the other and read its entries through the buffer: the result is the walk over the tree that the volume stores, failing at the first component that is missing; the volume is unchanged. |
| Paths.SplitLastSeparator | src/embext.c:932-948 | The path is divided at its last separator; it fails exactly when there is none. |
| Paths.TokensSplit | src/embext.c:932-942 | The components of a path are those before the last separator followed by the name, if and only if the name is not empty. |
| Paths.AppendedMatch | src/embext_directory.c:13-91 | A search by name after an append finds an entry that is left, else the new inode, but nothing for a name of 256 bytes or more. |
| Paths.AppendThenFind | src/embext_directory.c:13-91 | After an append to an open directory a search from its start finds the new inode if and only if the name is shorter than 256 bytes and no entry of another inode that is left has it. |
| Paths.CreateThenFind | src/embext.c:909-956 | On trees: with room for the record every lookup that succeeded gives the same, and the new path leads to the new inode if and only if its name is shorter than 256 bytes; without room the latter holds as long as the directory is still found. |
| Namespace.AppendToPath | src/embext_directory.c:13-91 | Looks the directory up, opens it for writing, appends and closes: it succeeds exactly when the path leads to a directory of the volume; the bytes of that directory on the device become those of the append, every other directory, every other inode and all other files are unchanged. |
| Creation.Create | src/embext.c:881-987 | For a path that leads nowhere: succeeds if and only if there is a free inode and the part before the last separator leads to a directory. Then the tree stored on the volume has the new entry behind those that are left, the inode was free, is taken and holds the record of a regular file (type, permissions, owner, times, one link, zeros), and every other inode and file is unchanged. When only the directory is missing, that inode, the lowest free one of the best group, stays allocated and nothing else changes. |
| Creation.CreatedFound | src/embext.c:881-987 | With room for the record every lookup that succeeded gives the same, and the created path leads to the new inode if and only if its name is shorter than 256 bytes; without room, under the same condition if its directory is still found. |
| Creation.InodeStepDirs | src/embext.c:398-453 | Allocating an inode changes no directory, and the new inode is none of them. |
| Mount.IsPower | src/embext.c:776-781 | Terminates for positive numbers and bases of at least 2, and decides whether the number is a power of the base. |
| Mount.LocateSuperblocks | src/embext.c:828-848 | The counting and the filling pass agree: the table has exactly the entries that are filled in. |
| Mount.HoldersExact | src/embext.c:828-848 | The groups are listed in order, once each, and are all groups, or exactly 0, 1 and the powers of 3, 5 and 7. |
| Mount.TableExact | src/embext.c:828-848 | The table starts with the primary superblock, increases by at least a group, and has one entry for each selected group. |
| Mount.CopiesApart | src/embext.c:828-848 | Copies at these places do not overlap, nor do their descriptor tables, as long as a table is shorter than a group: this part of the layout that the other proofs start from follows from the mount. |
| Mount.MountGeometry | src/embext.c:787-848 | Refusals, the number of groups (the least that covers all blocks) and the table: it begins with the block that holds byte 1024 of the partition and has one entry for each selected group, a multiple of the group size behind it; no entry wraps around. |
| Mount.SparseGroupAsWritten | src/embext.c:831 | With the arguments as written the test holds exactly for 0, 1, 3, 5 and 7. |
| Mount.SwappedTestIff | src/embext.c:828-841 | The selection as written is the intended one if and only if there are at most nine groups. |
| Mount.FlushedWhereReadIff | src/embext.c:312-321 | The flush writes the first superblock copy where the mount reads it only with 1 KiB blocks. |
| Md5.RotatingStep | test/hash.c:71-114 | One pass with rotated variables is the named step of RFC 1321 section 3.4 on the registers. |
| Md5.LeftRotateIs | test/hash.c:36-37 | The two shifts of the macro are a rotation for every distance in use. |
| Md5.FForm | test/hash.c:72 | The rewritten form of F is F. |
| Md5.GForm | test/hash.c:83 | The rewritten form of G is G. |
| Md5.Schedule2 | test/hash.c:82-91 | (5j+1) mod 16 and the shift table are the words and distances that RFC 1321 lists for round 2. |
| Md5.Schedule3 | test/hash.c:93-103 | (3j+5) mod 16 and the shift table are those of round 3. |
| Md5.Schedule4 | test/hash.c:104-114 | 7j mod 16 and the shift table are those of round 4. |
| Md5.Transform | test/hash.c:63-119 | The four loops compute the 64 steps and the final additions of section 3.4, for every state and block. |
| Md5.Start | test/hash.c:121-132 | Nothing is absorbed and the registers are those of section 3.3. |
| Md5.Update | test/hash.c:134-155 | The state after a chunk is the state after the message so far followed by the chunk. |
| Md5.Finish | test/hash.c:157-173 | The digest is that of the padded message, with one or two final blocks. |
| Md5.HashChunks | test/hash.c:121-173 | For every message and every split of it the digest is that of the whole message. |
| Md5.Md5Memory | test/hash.c:203-227 | The digest of a memory block of any length. |
| Md5.Md5File | test/hash.c:175-201 | The digest of a file read in megabytes until a short read. |
| Md5Vector.DigestAbc | test/hash.c:63-173 | The digest of "abc" is the one that RFC 1321 lists in section A.5. |

## Left out

* Failing device input and output: every sector inside the device can be read and written, so the error returns that
  only a failing device reaches are not taken.
* Wrap-around of 32-bit sector numbers, block sizes above 4 KiB, and filesystems that do not fit the volume; the size
  test at `src/embext.c:801`, which compares 1 KiB units with 512-byte blocks, is kept as it is.
- Allocator.ChangeAllocated: needs a volume that was consistent when it was mounted (structures inside the volume and
  apart from each other, counts equal to clear bits) and a block of one of the groups; damaged volumes are not modelled.
- Search.AllocateBlock: also needs every clear bit to stand for a block that may hold data.
- FileIO.Read: needs every byte below the size to be mapped; holes of sparse files, zero index-block pointers and
  block lookups beyond the largest file are not modelled.
- FileWrite.Write: needs start <= size and the pointer tables of the blocks it reaches, because the driver never
  allocates index blocks; the caller's memory is a sequence.
- FileRuns.RunOps: every write starts at or before the end of the file and ends below 4 GiB; runs in which a write does
  not fit are those of `BoundedRuns.RunSolid`.
- BoundedRuns.RunSolid: the file has no holes and no blocks behind its end, as every file has that the driver makes.
- Turns.TakeTurns: one file is open at a time, and the free blocks cover what all files may need.
- Exclusivity.RunBlocks: one file is open at a time; growth behind the direct slots needs its pointer table, and after
  a truncate only direct slots are used.
- Truncate.TruncateFile: starts with a clean buffer, as it does after an open; frees everything only with
  zero-terminated tables, which `FreedBlocks.FreesAllIffPrefix` shows to be the exact condition.
- AsWritten.WrongTableMisses: one direction; blocks that are freed twice are refused the second time and are not
  counted.
- Accounting.StepKeepsVolume: does not bound the count of directories, which the code changes for each block of a
  directory rather than for each directory; `Allocator.ChangeAllocated` and `Truncate.TruncateFile` state the change.
- Superblocks.FlushSuperblock: the fields of the record other than the totals and the group number are one constant of
  the mounted filesystem.
- Directory.AppendToDirectory: names must fit into a block, directories stay below 2 GiB, and deleted entries (inode 0)
  do not occur.
- Directory.ReadDir: a record with inode 0, at which the reader stops, is not part of a well-formed chain.
- Namespace.LookupPath: every inode that the lookup opens is a directory of whole tiled blocks, or does not exist; the
  driver does not look at the mode of an inode before it reads entries from it.
- Namespace.AppendToPath: the directory has the pointer table for one more block and stays below 2 GiB; the inode number
  of the entry is below 2^31.
- Creation.Create: also needs inode numbers for exactly the bits of the inode bitmaps; a path that leads to an inode
  number beyond the count, for which the outcome depends on an old error number, counts as a path that leads somewhere.
  Read-only media, exclusive creation and permissions are left out; user, group, mode and time are parameters.
- Creation.CreatedFound: the path has at most 1023 bytes and 100 components, as lookups cut longer ones.
- Md5.Update: a chunk is shorter than 2^64 - 63 bytes. The constants of RFC 1321 are the table of its appendix, not
  the sine function, and the host is little-endian.
- Mount.CopiesApart: what the bitmaps and inode tables of the descriptors say is not derived from the mount, which does
  not check it.
- Mount.MountGeometry: mount counts, times and the state field are left out, and so is the case of zero blocks per
  group, in which the code divides by zero.
* Several handles that are open at once, the partition table, the SD card driver, errno,
  fstat, isatty, printing, and `ext2_delete_from_directory`, whose body is empty.
