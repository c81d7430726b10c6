# Norost: verified models of the FAT driver, the virtqueue and three allocators

Norost is an operating system with a microkernel and drivers in user space. This project models the
parts of it that keep state in shared tables, and proves what their callers rely on:

- The FAT file system driver (`thirdparty/rust/fatfs`), from packed table entries up to files,
  directories, name generation, formatting and mounting. Every layer is tied to the one below: bytes
  of the table to a table of values, the table of values to a set of disjoint chains, chains to flat
  files, slots of a directory to the list of its entries.
- The split virtqueue (`lib/rust/virtio`): driver and device as steps of one state machine.
- The reservation of address ranges (`lib/rust/dux`), with machine words that wrap.
- The stack of physical pages in the kernel (`kernel/src/memory`), with counters that wrap.
- The two readers of flattened device trees (`lib/rust/device_tree`, `kernel/src/driver`).

Code that updates tables, buffers or cursors in place is modelled by classes and methods on arrays;
each such method is proved against a function on values, and the laws are lemmas about those functions.

| files | content |
|---|---|
| Options, Arithmetic, Bytes, Pigeonhole, Blocks | shared vocabulary: results, little-endian numbers, blocks of storage |
| FatEntry, FatTable, FatOps | packed entries, streaming scans, allocation and cluster iteration over bytes |
| FatChains, FatWalk, FatRuns | the table as a set of chains, walks over any table, runs of operations |
| Storage, DiskSlice, FileSystem | a storage that takes buffers piece by piece, mirrored windows of it, the mounted volume |
| Cursor, FileContents, FileChains, File, FileUse | positions in chains, flat files, what other files keep, the open file, whole buffers |
| DirEntries, LongNames, Listing, DirSlots, DirStreams, Directory | records, long names, iteration, directories in chains and in the fixed root |
| ShortNames, Creating | unique short names and creation of entries |
| BootSector, FatSizing, Formatting, VolumeFormat, Mounting | parameter block, size of the tables, formatting and mounting |
| VirtQueue, AddressRanges, PpnStack, DeviceTree | the other components |

Verify with `dafny verify dfyconfig.toml`.

## Model

| member | source | states |
|---|---|---|
| `FatEntry.DecodeEncode` | thirdparty/rust/fatfs/src/table.rs:254-282 | Reading the number that stands for a value gives the value back exactly if the entry width can represent it |
| `FatEntry.SetEvenKeepsOdd` | thirdparty/rust/fatfs/src/table.rs:284-300 | Writing an even 12-bit entry keeps the half byte of its odd neighbour, bit for bit |
| `FatEntry.SetOddKeepsEven` | thirdparty/rust/fatfs/src/table.rs:284-300 | Writing an odd 12-bit entry keeps the half byte of its even neighbour |
| `FatEntry.SetSame32` | thirdparty/rust/fatfs/src/table.rs:503-543 | A 32-bit entry is stored with its four reserved bits kept, unless the number itself reaches into them |
| `FatEntry.SetOther` | thirdparty/rust/fatfs/src/table.rs:284-300 | A write to one entry leaves every other entry as stored, for all three widths, although 12-bit entries overlap |
| `FatEntry.GetAfterSet` | thirdparty/rust/fatfs/src/table.rs:512-543 | For each width: the written entry reads back as its value if and only if that value is representable, and all others read as before |
| `FatEntry.TableAfterSet` | thirdparty/rust/fatfs/src/table.rs:78-90 | The byte table refines the table of values: storing an entry is one functional update, exactly if the value is representable |
| `FatTable.ReadEntry` | thirdparty/rust/fatfs/src/table.rs:239-267 | Reads the entry of a cluster through the slice, for each width |
| `FatTable.WriteEntry` | thirdparty/rust/fatfs/src/table.rs:269-300 | Stores an entry in every mirror; beside the tables only the status byte changes |
| `FatTable.FindFree12` | thirdparty/rust/fatfs/src/table.rs:302-331 | The streaming 12-bit scan returns the first zero entry of the range; on an empty range it never reports a lack of space |
| `FatTable.FindFree16` | thirdparty/rust/fatfs/src/table.rs:418-434 | The first zero entry of the range, NotEnoughSpace only if there is none |
| `FatTable.FindFree32` | thirdparty/rust/fatfs/src/table.rs:546-562 | The first entry of the range whose 28 bits are zero, NotEnoughSpace only if there is none |
| `FatTable.FindFreeCluster` | thirdparty/rust/fatfs/src/table.rs:105-121 | The scan of the volume's width, with the one case in which the widths differ spelled out |
| `FatTable.ScanFindsFree` | thirdparty/rust/fatfs/src/table.rs:546-562 | A scan finds the cluster that entry-by-entry reads would find if and only if the first zero entry is not numbered like a mark |
| `FatTable.ScansAgree` | thirdparty/rust/fatfs/src/table.rs:466-500 | Scan and reads agree on every table of a given size if and only if no cluster of the range is numbered like a mark |
| `FatTable.OddCountTest` | thirdparty/rust/fatfs/src/table.rs:333-363 | The 12-bit count joins the halves of odd entries the wrong way round, yet its zero test is exact |
| `FatTable.CountFree12` | thirdparty/rust/fatfs/src/table.rs:333-363 | The streaming count is the number of entries stored as zero, although bytes are shared between entries |
| `FatTable.CountFree16` | thirdparty/rust/fatfs/src/table.rs:436-453 | The streaming count is the number of entries stored as zero |
| `FatTable.CountFree32` | thirdparty/rust/fatfs/src/table.rs:564-581 | The streaming count is the number of entries whose 28 bits are zero |
| `FatTable.CountFreeClusters` | thirdparty/rust/fatfs/src/table.rs:180-192 | The count for every width is the number of entries stored as zero |
| `FatTable.CountIsFree` | thirdparty/rust/fatfs/src/table.rs:180-192 | That number is the number of free clusters if and only if no entry numbered like a mark is stored as zero |
| `FatChains.ChainIsAcyclic` | thirdparty/rust/fatfs/src/table.rs:645-660 | A chain that reaches its end visits no cluster twice |
| `FatChains.ChainsAreDisjoint` | thirdparty/rust/fatfs/src/table.rs:645-660 | In a well-formed table two whole chains that share a cluster are the same chain |
| `FatChains.InUseIsOnOneChain` | thirdparty/rust/fatfs/src/table.rs:645-660 | Every cluster in use lies on a whole chain, so the chains partition the clusters in use |
| `FatChains.StartChain` | thirdparty/rust/fatfs/src/table.rs:123-153 | Claiming a free cluster on its own adds exactly the one-cluster chain to the set of chains |
| `FatChains.ExtendChain` | thirdparty/rust/fatfs/src/table.rs:123-153 | Claiming a free cluster behind a chain replaces exactly that chain by its extension: the set of chains changes in no other way |
| `FatChains.ReleaseChain` | thirdparty/rust/fatfs/src/table.rs:625-634 | Releasing a chain removes exactly that chain from the set of chains |
| `FatChains.TruncateChain` | thirdparty/rust/fatfs/src/table.rs:612-623 | Cutting a chain replaces exactly that chain by its prefix |
| `FatWalk.FreeWalkErasesOrbit` | thirdparty/rust/fatfs/src/table.rs:625-634 | On every table with links in range, looping ones included, freeing terminates, frees exactly the clusters reachable from the start and reports their number, one more if the links loop |
| `FatWalk.OrbitExists` | thirdparty/rust/fatfs/src/table.rs:645-660 | Every cluster has a finite orbit, so the result above covers every call |
| `FatWalk.FreeWalkOfChain` | thirdparty/rust/fatfs/src/table.rs:625-634 | On a chain freeing erases exactly the chain and reports its length |
| `FatWalk.TruncateWalkOfChain` | thirdparty/rust/fatfs/src/table.rs:612-623 | Truncating at a member frees exactly the members behind it and reports their number |
| `FatWalk.FindFree` | thirdparty/rust/fatfs/src/table.rs:105-121 | The least free cluster of a range, none only if there is none: what the scans are measured against |
| `FatWalk.SearchFree` | thirdparty/rust/fatfs/src/table.rs:123-153 | The search that starts at the hint and wraps around fails only if no cluster is free, whatever the hint |
| `FatRuns.AllocSound` | thirdparty/rust/fatfs/src/fs.rs:495-511 | Allocation keeps the table a set of disjoint chains and the cached count right |
| `FatRuns.ReleaseOfChain` | thirdparty/rust/fatfs/src/fs.rs:487-493 | Releasing a chain frees its clusters, counts each once and keeps the table well-formed |
| `FatRuns.TruncateOfChain` | thirdparty/rust/fatfs/src/fs.rs:479-485 | Cutting a chain keeps its front, frees the rest, counts each once and keeps the table well-formed |
| `FatRuns.StepSound` | thirdparty/rust/fatfs/src/fs.rs:479-511 | Every operation callers may issue keeps the invariant of a volume |
| `FatRuns.RunSound` | thirdparty/rust/fatfs/src/fs.rs:479-548 | Over every run of legal allocations, releases, truncations and statistics the table stays a set of disjoint chains and the cached count the number of free clusters |
| `FatRuns.StatsAfterRun` | thirdparty/rust/fatfs/src/fs.rs:535-555 | After every run the statistics report what a recount of the table would |
| `FatRuns.DecrementSafe` | thirdparty/rust/fatfs/src/fs.rs:507-509 | The decrement of the cached count never wraps below zero |
| `DiskSlices.MirrorsStayEqual` | thirdparty/rust/fatfs/src/fs.rs:820-834 | Mirrors that were equal before a mirrored write are equal after it |
| `Storages.PiecesJoin` | thirdparty/rust/fatfs/src/io.rs:104-117 | On a volume that is marked dirty a buffer ends up in one piece, whatever the storage takes in each call |
| `Storages.RestStrays` | thirdparty/rust/fatfs/src/fs.rs:712-718 | On a clean one the status byte is written behind the first piece, and what is left of the buffer lands behind the status byte |
| `DiskSlices.SafeMirrors` | thirdparty/rust/fatfs/src/fs.rs:820-834 | If the volume is dirty or the first piece is whole, every mirror has the buffer and beside the window only the status byte changes |
| `DiskSlices.ShortWriteStrays` | thirdparty/rust/fatfs/src/fs.rs:820-834 | Otherwise the first mirror keeps an old byte where the rest of the buffer should be, and that rest overwrites the byte behind the status byte |
| `DiskSlices.WritesExactly` | thirdparty/rust/fatfs/src/fs.rs:820-834 | A write is mirrored for all contents if and only if the volume is dirty already or the storage takes the first piece whole |
| `DiskSlices.DiskSlice.WriteSome` | thirdparty/rust/fatfs/src/fs.rs:711-719 | One call of the storage: the bytes it takes, the position, and the status byte of a volume that was clean |
| `DiskSlices.DiskSlice.WriteMirrors` | thirdparty/rust/fatfs/src/fs.rs:826-832 | The loop over the mirrors, each sought and written until everything is taken, does exactly what the function on values says, stray bytes included |
| `DiskSlices.DiskSlice.Seek` | thirdparty/rust/fatfs/src/fs.rs:842-867 | From start, end or position: places outside the slice are refused and leave the cursor alone, all others are reached |
| `DiskSlices.DiskSlice.ReadExact` | thirdparty/rust/fatfs/src/fs.rs:809-813 | Reads the window's bytes, or consumes what is left and reports the end |
| `DiskSlices.DiskSlice.WriteAll` | thirdparty/rust/fatfs/src/fs.rs:820-834 | Writes at the cursor, cut at the end of the window and then refused; all mirrors have the bytes if the volume is dirty or the first piece whole |
| `FatOps.ReadFat` | thirdparty/rust/fatfs/src/table.rs:65-76 | Reads the value the table of values has for a cluster |
| `FatOps.WriteFat` | thirdparty/rust/fatfs/src/table.rs:78-90 | Updates the table of values at one cluster and changes nothing beside the tables but the status byte |
| `FatOps.FreeingStrays` | thirdparty/rust/fatfs/src/table.rs:284-300 | On a clean FAT12 volume and a storage that takes single bytes, freeing cluster 341 frees it in the second mirror only and links it to cluster 0xFF0 in the first |
| `FatOps.SearchIsRight` | thirdparty/rust/fatfs/src/table.rs:123-153 | A search answers as the table of values asks, and fails only with NotEnoughSpace, if and only if the volume is not a FAT12 one without clusters and the first zero entry is not numbered like a mark |
| `FatOps.RegularExactly` | thirdparty/rust/fatfs/src/boot_sector.rs:291-314 | The number of clusters alone decides it: all searches on all tables are right if and only if the volume is regular |
| `Mounting.MountedRegular` | thirdparty/rust/fatfs/src/boot_sector.rs:291-330 | In a build that stops at overflows every volume whose table is large enough is regular, but for FAT12 volumes without clusters |
| `Mounting.HollowMounts` | thirdparty/rust/fatfs/src/boot_sector.rs:291-330 | A FAT12 block without clusters that passes every check |
| `Mounting.MarkedMounts` | thirdparty/rust/fatfs/src/boot_sector.rs:299-307 | A FAT32 block with clusters numbered like marks that a build with wrapping arithmetic mounts and others stop at |
| `Formatting.BuildsAgree` | thirdparty/rust/fatfs/src/boot_sector.rs:291-330 | Builds with checked and with wrapping arithmetic accept the same blocks, as the same type, unless the first one stops |
| `FatOps.ClaimedTable` | thirdparty/rust/fatfs/src/table.rs:146-150 | The two entries written by an allocation are the abstract claim if and only if the new link can be told from a mark |
| `FatOps.AllocCluster` | thirdparty/rust/fatfs/src/table.rs:123-153 | On every volume that can be mounted: which cluster is taken from which hint, the exact bytes of the table afterwards, and nothing beside the tables changed but the status byte |
| `FatOps.AllocRegular` | thirdparty/rust/fatfs/src/table.rs:123-153 | On a regular volume allocation is that of the table of values: it fails exactly if no cluster is free |
| `FatOps.ClusterIterator.Next` | thirdparty/rust/fatfs/src/table.rs:645-660 | Moves to the linked cluster; at the end it stays exhausted |
| `FatOps.ClusterIterator.Free` | thirdparty/rust/fatfs/src/table.rs:625-634 | The loop that steps on and then frees the cluster just left does to the table, and counts, what the walk over values does, loops included |
| `FatOps.ClusterIterator.Truncate` | thirdparty/rust/fatfs/src/table.rs:612-623 | Ends the chain at the current cluster and frees what is behind, as the walk over values does |
| `FileSystems.ClusterOffset` | thirdparty/rust/fatfs/src/fs.rs:442-456 | The sector arithmetic places cluster c at block c - 2 of the data region |
| `FileSystems.WriteZeros` | thirdparty/rust/fatfs/src/fs.rs:908-916 | Writing in chunks of 512 bytes zeroes exactly the bytes asked for |
| `FileSystems.FileSystem.constructor` | thirdparty/rust/fatfs/src/fs.rs:368-416 | Mounting drops a stored free count of a dirty volume and counts and hints that are out of range |
| `FileSystems.FileSystem.SetDirtyFlag` | thirdparty/rust/fatfs/src/fs.rs:586-610 | The status byte gets the dirty and the error bit if the state changes, and keeps its value if not; nothing else changes |
| `FileSystems.FileSystem.NextCluster` | thirdparty/rust/fatfs/src/fs.rs:471-477 | The cluster linked behind a cluster, none at the end |
| `FileSystems.FileSystem.AllocCluster` | thirdparty/rust/fatfs/src/fs.rs:495-511 | Disk, cached count and hint move together as one abstract allocation; the mirrors stay equal, and apart from table, status byte and the zeroed cluster nothing changes |
| `FileSystems.FileSystem.FreeClusterChain` | thirdparty/rust/fatfs/src/fs.rs:487-493 | Disk and cached count move as one abstract release; no cluster's contents and nothing outside the tables changes |
| `FileSystems.FileSystem.TruncateClusterChain` | thirdparty/rust/fatfs/src/fs.rs:479-485 | Disk and cached count move as one abstract truncation; no cluster's contents change |
| `FileSystems.FileSystem.Stats` | thirdparty/rust/fatfs/src/fs.rs:535-555 | The reported number is the number of free clusters, cached or recounted, and is cached |
| `Cursor.ClustersForIsCeiling` | thirdparty/rust/fatfs/src/fs.rs:462-464 | The number of clusters for a size is the rounded-up quotient |
| `Cursor.CursorAdvance` | thirdparty/rust/fatfs/src/file.rs:335-338 | After moving inside a cluster the cursor still names the cluster of the last byte before the position |
| `FileChains.LengtheningKeeps` | thirdparty/rust/fatfs/src/file.rs:309-316 | Any number of steps that lengthen a chain by free clusters keeps all others |
| `FileContents.ChainBytesWrite` | thirdparty/rust/fatfs/src/file.rs:326-331 | Writing inside one cluster is overwriting the file's flat bytes at the matching place |
| `FileChains.WriteKeepsOthers` | thirdparty/rust/fatfs/src/file.rs:326-331 | Writing in a cluster of one chain keeps the bytes of all others and everything outside the clusters |
| `FileChains.GrowKeepsOthers` | thirdparty/rust/fatfs/src/file.rs:309-316 | Growing one chain keeps all others |
| `FileChains.CutKeepsOthers` | thirdparty/rust/fatfs/src/file.rs:63-66 | Cutting one chain keeps all others |
| `FileChains.ReleaseKeepsOthers` | thirdparty/rust/fatfs/src/file.rs:67-72 | Releasing one chain keeps all others |
| `Files.File.constructor` | thirdparty/rust/fatfs/src/file.rs:29-42 | An opened file stands at 0, before its first cluster, whatever size its entry records |
| `Files.File.Read` | thirdparty/rust/fatfs/src/file.rs:215-265 | Refines reading from a flat byte sequence; the count is the least of request, cluster, file and what the storage delivers |
| `Files.File.Write` | thirdparty/rust/fatfs/src/file.rs:279-345 | Refines overwriting a flat byte sequence, growing the chain when the position is at its end; fails exactly if it has to grow and nothing is free; every other chain keeps its clusters and bytes, and free clusters what they hold. What a recorded size beyond the chain reveals of a new cluster is stated, too |
| `Files.File.Seek` | thirdparty/rust/fatfs/src/file.rs:366-427 | Refines seeking in a flat file: the cursor lands on the cluster of the byte before the position, positions behind the end are cut to it, negative ones refused, also where the chain is shorter than the recorded size |
| `Files.File.Truncate` | thirdparty/rust/fatfs/src/file.rs:52-75 | Refines cutting a flat file at the position; exactly the clusters behind it are free again and all other chains keep their bytes |
| `Files.File.AbsPos` | thirdparty/rust/fatfs/src/file.rs:77-96 | The disk address that follows the byte before the position, none at the start |
| `FileUse.WriteAll` | thirdparty/rust/fatfs/src/io.rs:104-117 | Writing a buffer in pieces of any size is one write to the flat file; on failure a prefix is written and the file is full or no cluster is free; all other chains keep their bytes |
| `FileUse.ReadToEnd` | thirdparty/rust/fatfs/src/file.rs:215-265 | Reading in pieces of any size gives everything from the position to the end |
| `FileUse.Replace` | thirdparty/rust/fatfs/tests/write.rs:75-91 | Emptying a file, writing a buffer and reading it back gives the buffer, and the file has nothing else |
| `DirEntries.FileRoundTrip` | thirdparty/rust/fatfs/src/dir_entry.rs:257-271 | A file record survives encoding and decoding |
| `DirEntries.LfnRoundTrip` | thirdparty/rust/fatfs/src/dir_entry.rs:326-342 | A long-name part survives encoding and decoding |
| `DirEntries.RecodedFile` | thirdparty/rust/fatfs/src/dir_entry.rs:380-436 | Any 32 bytes decoded as a file record and encoded again are the same but for two attribute bits |
| `DirEntries.RecodedLfn` | thirdparty/rust/fatfs/src/dir_entry.rs:380-436 | Any 32 bytes decoded as a long-name part and encoded again are the same but for two attribute bits |
| `DirEntries.DeletedRecord` | thirdparty/rust/fatfs/src/dir_entry.rs:438-450 | Reading any record, marking it deleted and writing it back sets the mark, drops the two attribute bits and changes nothing else |
| `DirEntries.Marks` | thirdparty/rust/fatfs/src/dir_entry.rs:438-458 | End, deletion, volume and long-name marks can be read off the bytes |
| `DirEntries.FirstClusterRead` | thirdparty/rust/fatfs/src/dir_entry.rs:179-199 | A first cluster is read back as stored if and only if it is not 0 and fits the type's field |
| `LongNames.RunUnique` | thirdparty/rust/fatfs/src/dir.rs:874-906 | The entries seen so far end in at most one run of a long name |
| `LongNames.RunBroken` | thirdparty/rust/fatfs/src/dir.rs:874-906 | An entry that neither starts a name nor continues the run ends every run |
| `LongNames.LongNameBuilder.Process` | thirdparty/rust/fatfs/src/dir.rs:874-906 | The buffer always holds the current run of the entries seen, or nothing |
| `LongNames.LongNameBuilder.Finish` | thirdparty/rust/fatfs/src/dir.rs:847-919 | The name handed out is the one the entry history has for that short name's checksum: complete run, right checksum, fill stripped |
| `LongNames.GenerateIsRun` | thirdparty/rust/fatfs/src/dir.rs:947-999 | The generated parts are a complete run, whatever came before |
| `LongNames.GeneratedName` | thirdparty/rust/fatfs/src/dir.rs:947-999 | After any junk the generated parts give the name back up to fill at its end, and only for the checksum they carry |
| `LongNames.NameSurvives` | thirdparty/rust/fatfs/src/dir.rs:858-866 | A long name comes back unchanged if and only if it does not end in 0 or 0xFFFF |
| `Listings.ScanEntry` | thirdparty/rust/fatfs/src/dir.rs:614-667 | Whatever parts were seen before, iteration yields an entry with its own name |
| `Listings.ScanReaches` | thirdparty/rust/fatfs/src/dir.rs:614-667 | Iteration yields something if a short name comes before the end |
| `Listings.OrphansUnlisted` | thirdparty/rust/fatfs/src/dir.rs:513-531 | Parts left over from an entry that could not be finished are never listed |
| `Listings.RemoveListed` | thirdparty/rust/fatfs/src/dir.rs:364-373 | Deleting the records of an item takes exactly that item out of the list |
| `DirSlots.EntryPut` | thirdparty/rust/fatfs/src/dir.rs:533-568 | All slots of an entry written into free space: the list has the entry with its name. Exactly one entry is added if and only if the slots were all deleted ones, or the slots behind them, old and appended ones, list nothing |
| `DirSlots.EntryCutOff` | thirdparty/rust/fatfs/src/dir.rs:513-531 | Some parts written and then no room left: the list is as before |
| `DirSlots.EntryRemoved` | thirdparty/rust/fatfs/src/dir.rs:364-373 | All slots of an item marked deleted: the list loses exactly that item |
| `DirSlots.TidyHarmless` | thirdparty/rust/fatfs/src/dir.rs:533-568 | That holds in every tidy directory that grows by zeros |
| `Directories.EntryWritten` | thirdparty/rust/fatfs/src/dir.rs:533-568 | What writing a prefix of the slots of an entry into free space does to the list, in all cases, with the same condition |
| `Directories.StaleEntryAppears` | thirdparty/rust/fatfs/src/file.rs:145-150 | The FAT32 root grows by clusters that are not zeroed: any old record in them, before an end mark, appears beside the new entry |
| `DirStreams.PutInFile` | thirdparty/rust/fatfs/src/dir.rs:69-73 | A slot written to a directory stored in a chain replaces that slot, or grows the directory by the cluster that is found next; fails only if none is free; what it will grow by after that was already determined |
| `DirStreams.PutInRoot` | thirdparty/rust/fatfs/src/dir.rs:69-73 | A slot written to the fixed root region, field by field, replaces that slot, or is refused behind the last one; table and all chains are kept |
| `DirStreams.RootSurvives` | thirdparty/rust/fatfs/src/fs.rs:612-627 | Whatever is done to clusters and tables, the bytes of the fixed root survive it |
| `DirStreams.ChainsSurvive` | thirdparty/rust/fatfs/src/fs.rs:612-627 | Whatever is done to the fixed root, the table and the bytes of all chains survive it |
| `Directories.Dir.FromFile` | thirdparty/rust/fatfs/src/dir_entry.rs:641-651 | A directory over a chain |
| `Directories.Dir.FixedRoot` | thirdparty/rust/fatfs/src/fs.rs:612-627 | The root directory of a FAT12 or FAT16 volume: the region between tables and data, without growth |
| `Directories.Dir.FindFree` | thirdparty/rust/fatfs/src/dir.rs:453-486 | Finds the first place with room for a number of slots: a run of deleted ones, or the end |
| `Directories.ValidateLongName` | thirdparty/rust/fatfs/src/dir.rs:700-719 | Refuses names that are empty or longer than 255 bytes in UTF-8, and unsupported characters |
| `Directories.Dir.WriteEntry` | thirdparty/rust/fatfs/src/dir.rs:533-568 | Fails for lack of room if and only if the directory cannot grow to hold the entry, and then lists what it did; else it lists the entry, and exactly that was added if and only if a condition on the slots before the call and on the free clusters holds; all other chains keep their bytes; for subdirectories, FAT32 root and fixed root alike |
| `Directories.Dir.ReadEntry` | thirdparty/rust/fatfs/src/dir.rs:614-667 | Returns the next entry of the list and stops behind its slots |
| `Directories.Dir.List` | thirdparty/rust/fatfs/src/dir.rs:120-124 | Iterating to the end yields exactly the entries that the records stand for, and changes nothing |
| `Directories.Dir.RemoveEntry` | thirdparty/rust/fatfs/src/dir.rs:364-373 | Marking the slots takes exactly the entry out of the list and keeps table and all other chains |
| `Directories.Dir.Remove` | thirdparty/rust/fatfs/src/dir.rs:346-375 | The list loses exactly the entry, the set of chains exactly its chain, the free count rises by its length and all other chains keep their bytes |
| `Directories.OnlyReleased` | thirdparty/rust/fatfs/src/dir.rs:359-362 | After one chain is released the chains are the others |
| `ShortNames.HexRoundTrip` | thirdparty/rust/fatfs/src/dir.rs:1216-1228 | Four hexadecimal digits read back as the number |
| `ShortNames.CopyShows` | thirdparty/rust/fatfs/src/dir.rs:1081-1111 | The copy is the front of what a short name can show: capitals, no spaces and dots, underscores for what it cannot hold |
| `ShortNames.CopyFits` | thirdparty/rust/fatfs/src/dir.rs:1081-1111 | It fits without loss if and only if the text is plain and short enough |
| `ShortNames.NewShows` | thirdparty/rust/fatfs/src/dir.rs:1042-1066 | The short name is that of the stem and that of the suffix, each padded; it is the name itself if and only if both are plain and short enough |
| `ShortNames.NewLegal` | thirdparty/rust/fatfs/src/dir.rs:1042-1066 | All characters of the short name are legal |
| `ShortNames.Generate` | thirdparty/rust/fatfs/src/dir.rs:1168-1188 | No name if and only if the name itself, all four long forms and all nine checksum forms are taken |
| `ShortNames.GeneratedIsNew` | thirdparty/rust/fatfs/src/dir.rs:1113-1188 | A generated name is none of the names scanned |
| `ShortNames.GeneratedStartsLegal` | thirdparty/rust/fatfs/src/dir.rs:1198-1214 | A generated name starts like the name asked for, so it is no deletion or end mark |
| `ShortNames.NextBlocking` | thirdparty/rust/fatfs/src/dir.rs:1190-1196 | A pass fails only because of nine names that make no other pass fail |
| `ShortNames.BlockingBound` | thirdparty/rust/fatfs/src/dir.rs:1190-1196 | So there are at most as many failing passes as nines of names |
| `ShortNames.FewNames` | thirdparty/rust/fatfs/src/dir.rs:1190-1196 | A directory with fewer than nine names for each of the 65536 checksums has a free candidate |
| `ShortNames.AllTaken` | thirdparty/rust/fatfs/src/dir.rs:172-191 | With every candidate taken every pass fails: the search of the source does not end |
| `ShortNames.FullIsTaken` | thirdparty/rust/fatfs/src/dir.rs:172-191 | A directory, for every name, in which every candidate is taken |
| `ShortNames.ShortNameGenerator.AddExisting` | thirdparty/rust/fatfs/src/dir.rs:1113-1157 | The bitmaps hold exactly the digits that the scanned names take |
| `ShortNames.ShortNameGenerator.FindUnused` | thirdparty/rust/fatfs/src/dir.rs:166-192 | The search ends with an unused, legal name after at most a ninth as many passes as names, plus one |
| `Creating.AddedDistinct` | thirdparty/rust/fatfs/src/dir.rs:166-192 | Adding an entry with an unused short name keeps the short names of a directory distinct |
| `Creating.NewRecordIsShort` | thirdparty/rust/fatfs/src/dir.rs:488-502 | The record of a new entry is read as an entry with the generated name |
| `Creating.CreateEntry` | thirdparty/rust/fatfs/src/dir.rs:252-270 | Creating an entry lists it under a short name that no other entry has and keeps short names distinct if nothing else shows up; a failure changes no entry; stops exactly for names that are empty or do not start with an ASCII character |
| `BootSectors.BpbRoundTrip` | thirdparty/rust/fatfs/src/boot_sector.rs:49-137 | A parameter block is read back as written if and only if the fields its type does not store, or does not use, are zero |
| `FatSizing.DataRemains` | thirdparty/rust/fatfs/src/boot_sector.rs:535-589 | The tables leave room for data |
| `FatSizing.FatHoldsClusters` | thirdparty/rust/fatfs/src/boot_sector.rs:535-589 | The computed table has an entry for every cluster, besides the two reserved ones |
| `FatSizing.FatNotTooLarge` | thirdparty/rust/fatfs/src/boot_sector.rs:871-914 | It has at most two sectors' worth of entries too many |
| `Formatting.DefaultCluster` | thirdparty/rust/fatfs/src/boot_sector.rs:503-533 | The default cluster size is a power of two from 512 to 32768 and keeps the number of clusters at most 2 to the 26 |
| `Formatting.DetermineGeometry` | thirdparty/rust/fatfs/src/boot_sector.rs:648-672 | FAT32 is preferred to FAT16 and that to FAT12: the types before the chosen one do not fit, and there is none if and only if no type fits |
| `Formatting.GeometryFits` | thirdparty/rust/fatfs/src/boot_sector.rs:591-637 | The table size of an accepted geometry fits its field and keeps 32-bit arithmetic exact |
| `Formatting.FormattedMounts` | thirdparty/rust/fatfs/src/boot_sector.rs:674-772 | A formatted parameter block is read back as written, passes every check and is mounted as the type it was formatted with |
| `Formatting.FormatAccepts` | thirdparty/rust/fatfs/src/boot_sector.rs:765-769 | The type check at the end of formatting never fails |
| `VolumeFormat.FormatFat` | thirdparty/rust/fatfs/src/table.rs:194-236 | A zeroed table becomes one in which the clusters of the volume are free, all entries behind them are ends of chains, and those numbered like marks are bad |
| `VolumeFormat.FormattedFits` | thirdparty/rust/fatfs/src/fs.rs:1163-1184 | Tables, root region and data of an accepted geometry fit the storage and each other, and all searches on it are right |
| `VolumeFormat.FormatVolume` | thirdparty/rust/fatfs/src/fs.rs:1120-1204 | The storage holds the parameter block, equal fresh tables and an empty root directory |
| `VolumeFormat.FormatAndMount` | thirdparty/rust/fatfs/src/fs.rs:1120-1204 | Succeeds exactly if a geometry is found, else changes nothing; the mounted volume is sound, all clusters but the FAT32 root are free, and the root directory is empty |
| `VirtQueue.PartitionSend` | lib/rust/virtio/src/queue.rs:252-262 | Popping descriptors and offering them keeps the partition into free descriptors and chains in flight |
| `VirtQueue.PartitionReturn` | lib/rust/virtio/src/queue.rs:289-300 | Returning a chain's descriptors keeps the partition |
| `VirtQueue.RingPut` | lib/rust/virtio/src/queue.rs:264-266 | A head put into the ring overwrites no slot in use, although the 16-bit index wraps |
| `VirtQueue.RoomInRings` | lib/rust/virtio/src/queue.rs:264-266 | A ring of 8 slots has room for one more chain whenever a descriptor is free |
| `VirtQueue.ConsumeStep` | lib/rust/virtio/src/queue.rs:264-266 | The device taking a head keeps the invariant of the queue |
| `VirtQueue.CompleteStep` | lib/rust/virtio/src/queue.rs:284-288 | The device completing any consumed chain, in any order, keeps the invariant; the used ring has room |
| `VirtQueue.SendStep` | lib/rust/virtio/src/queue.rs:241-268 | Offering popped descriptors as a chain keeps the invariant |
| `VirtQueue.CollectStep` | lib/rust/virtio/src/queue.rs:284-302 | The indices are equal exactly if nothing is completed; else the ring has the first completed chain, still linked, and taking it keeps the invariant |
| `VirtQueue.HandedBackOnce` | lib/rust/virtio/src/queue.rs:223-305 | At every point of every run each accepted list is in flight or handed back, once, and nothing else is |
| `VirtQueue.Queue.constructor` | lib/rust/virtio/src/queue.rs:173-218 | A new queue meets the invariant with all descriptors free |
| `VirtQueue.Queue.LinkChain` | lib/rust/virtio/src/queue.rs:246-262 | The loop pops a descriptor for each buffer and links them in order; chains in flight are not touched |
| `VirtQueue.Queue.ReleaseChain` | lib/rust/virtio/src/queue.rs:289-300 | The loop follows the links, frees the chain's descriptors and reports its buffers in order |
| `VirtQueue.Queue.CollectUsed` | lib/rust/virtio/src/queue.rs:278-305 | Takes back exactly the completed chains, reports every buffer as it was sent and returns their number |
| `VirtQueue.Queue.Send` | lib/rust/virtio/src/queue.rs:223-268 | Succeeds if and only if there were enough free descriptors at the start; offers exactly the buffers as one chain; a failing call only collects |
| `VirtQueue.Queue.Quiescent` | lib/rust/virtio/src/queue.rs:223-305 | With nothing in flight every descriptor is free and every accepted list was handed back |
| `AddressRanges.SearchIsFirstFit` | lib/rust/dux/src/mem.rs:252-279 | The search finds the lowest gap that fits, or nothing if none does, if and only if the request is safe from wrap-around |
| `AddressRanges.WrappingRequestGranted` | lib/rust/dux/src/mem.rs:258-266 | A request that fits nowhere is granted over a reservation at the top of the address space |
| `AddressRanges.LowestAvailable` | lib/rust/dux/src/mem.rs:252-279 | If any address is available, the granted one is the lowest |
| `AddressRanges.SearchMeaning` | lib/rust/dux/src/mem.rs:252-279 | For a safe request the outcome says whether any address is available |
| `AddressRanges.RemoveUndoesInsert` | lib/rust/dux/src/mem.rs:291-314 | The granted range is found again by its start, and releasing it restores the list |
| `AddressRanges.Reservations.InsertEntry` | lib/rust/dux/src/mem.rs:213-236 | Shifts the entries up in place and writes the new one; fails exactly if the array is full |
| `AddressRanges.Reservations.Reserve` | lib/rust/dux/src/mem.rs:246-282 | Grants the first gap the search accepts; for a safe request the list stays sorted and NoSpace means that there is no room |
| `AddressRanges.Reservations.BinarySearch` | lib/rust/dux/src/mem.rs:294-302 | Finds the entry that starts at the address if there is one |
| `AddressRanges.Reservations.Unreserve` | lib/rust/dux/src/mem.rs:291-314 | Removes exactly the entry that starts at the address; fails exactly if there is none |
| `PpnStack.HoldsTests` | kernel/src/memory/allocator.rs:58-66 | The tests for full and empty are exact although the counters wrap |
| `PpnStack.Stack.Push` | kernel/src/memory/allocator.rs:58-72 | Appends the page; fails exactly if the stack is full |
| `PpnStack.Stack.Pop` | kernel/src/memory/allocator.rs:75-88 | Takes the youngest page |
| `PpnStack.Stack.PopBase` | kernel/src/memory/allocator.rs:96-109 | Takes the oldest page |
| `PpnStack.ConservedCount` | kernel/src/memory/allocator.rs:191-208 | Pages on the stack and pages handed out add up to the pages inserted |
| `PpnStack.Allocator.Alloc` | kernel/src/memory/allocator.rs:191-194 | Hands out a page that nobody holds; none exactly if the stack is empty |
| `PpnStack.Allocator.Free` | kernel/src/memory/allocator.rs:197-203 | Takes a page back; fails exactly if the stack is full |
| `PpnStack.Allocator.Insert` | kernel/src/memory/allocator.rs:206-208 | Adds a page to those the allocator owns |
| `DeviceTree.NewNode` | lib/rust/device_tree/src/lib.rs:246-316 | On a block that holds a tree a node is read to its end token, whatever its cells are |
| `DeviceTree.PropertyIter.Next` | lib/rust/device_tree/src/lib.rs:319-356 | Yields the node's properties in order |
| `DeviceTree.InheritedCells` | lib/rust/device_tree/src/lib.rs:372-402 | The cells for the children, found if and only if every cells property is a word |
| `DeviceTree.ChildIter.Next` | lib/rust/device_tree/src/lib.rs:384-402 | Yields the node's children in order, with the cells of their parent |
| `DeviceTree.ReadTree` | lib/rust/device_tree/src/lib.rs:246-402 | The userspace reader finds exactly the tree that is in the block, if and only if all its cells are words |
| `DeviceTree.Interpreter.StepNode` | kernel/src/driver/device_tree.rs:254-284 | Enters the next child or leaves the node; stops exactly if the child's name is not UTF-8 |
| `DeviceTree.Interpreter.StepProperty` | kernel/src/driver/device_tree.rs:293-324 | Reads the next property or stays; stops exactly if its name is not UTF-8 |
| `DeviceTree.KernelNode.NextProperty` | kernel/src/driver/device_tree.rs:340-351 | The next property in order, then none |
| `DeviceTree.KernelNode.NextChildNode` | kernel/src/driver/device_tree.rs:354-365 | The next child, with unread properties passed over first |
| `DeviceTree.KernelNode.Drop` | kernel/src/driver/device_tree.rs:370-373 | Dropping a node in any state leaves the shared cursor behind its end token and counts every node once; it stops exactly if an unread name is not UTF-8 |
| `DeviceTree.KernelNode.ReadAll` | kernel/src/driver/device_tree.rs:340-373 | The kernel reader finds exactly the tree that is in the block, if and only if all names are UTF-8 |
| `DeviceTree.TreeUnique` | lib/rust/device_tree/src/lib.rs:246-316 | At most one tree is in a block, so both readers find the same |

## Findings

Properties that the code does not have on all inputs it accepts, each with an input and the exact
condition under which it holds:

- Writes to the tables and to the fixed root directory: on a clean volume the status byte is written
  behind the first piece that the storage takes, and the rest of the buffer lands behind the status byte
  (`DiskSlices.ShortWriteStrays`, for the table `FatOps.FreeingStrays`). A write reaches all mirrors and
  nothing else if and only if the volume is marked dirty already or the first piece is whole
  (`DiskSlices.WritesExactly`). Writing to a file marks the volume dirty first; removing an entry,
  truncating a file and creating a directory do not.
- Reservation: a request whose end wraps around is granted over an existing range at the top of the
  address space (`AddressRanges.WrappingRequestGranted`); the search is a first-fit search if and only
  if the last gap does not wrap or some gap fits (`AddressRanges.SearchIsFirstFit`).
- FAT32 volumes with clusters numbered like marks (0x0FFF_FFF7 and up): a build without overflow checks
  mounts them, because a 32-bit product wraps; a build with them stops (`Mounting.MarkedMounts`,
  `Mounting.MountedRegular`). On them a scan can return, and the count can include, an entry that reads
  as bad, and a link to such a cluster is not read back as a link (`FatTable.ScanFindsFree`,
  `FatTable.ScansAgree`, `FatTable.CountIsFree`, `FatOps.ClaimedTable`, `FatOps.RegularExactly`).
- FAT12 volumes without clusters pass validation (`Mounting.HollowMounts`). There the scan runs past the
  range and allocation never reports a lack of space (`FatTable.FindFree12`, `FatOps.SearchIsRight`).
- The root directory of a FAT32 volume grows by clusters that are not zeroed, so old records in them can
  appear as entries (`Directories.StaleEntryAppears`). Storing an entry adds exactly that entry if and
  only if it goes onto deleted slots, or the slots behind it, old ones and those of the clusters that are
  found next, list nothing (`DirSlots.EntryPut`, `Directories.Dir.WriteEntry`).
- A file whose recorded size is beyond its chain shows old bytes of the clusters it grows by
  (`Files.File.Write`); with a size that its clusters hold it shows none (`FileUse.WriteAll`).
- Long names that end in 0 or 0xFFFF lose these units (`LongNames.NameSurvives`).
- Creating an entry with an empty name is documented to fail with InvalidFileNameLength. The generator of
  short names cuts the first byte off before the length is looked at, so the code stops, as it does for
  names whose first character is not ASCII (`Creating.CreateEntry`).
- The search for a short name does not end if every candidate of every checksum is taken
  (`ShortNames.AllTaken`, for a directory `ShortNames.FullIsTaken`); otherwise it ends
  (`ShortNames.ShortNameGenerator.FindUnused`).
- Freeing a chain that loops counts one cluster twice (`FatWalk.FreeWalkErasesOrbit`).
- Deleting a record drops the two attribute bits that have no meaning (`DirEntries.DeletedRecord`).
- A first cluster is not read back as stored if it is 0 or does not fit (`DirEntries.FirstClusterRead`).
- `Node::new` tests an alignment where it means the length of a cells property, so a node is accepted
  whose children cannot be iterated (`DeviceTree.NewNode`, `DeviceTree.ReadTree`).
- The kernel's device tree reader stops at names that are not UTF-8, which the other reader accepts
  (`DeviceTree.KernelNode.ReadAll`).
- `Queue::send` reports NoBuffers even if collecting has made room: its second test is inverted
  (`VirtQueue.Queue.Send`). The documentation does not mention this; the model follows the code.
- The 12-bit count joins the halves of odd entries in the wrong order, which turns out to be harmless
  (`FatTable.OddCountTest`).

## Left out

- Errors of the storage itself: every call of the modelled storage takes or delivers at least one byte and reports no error.
- Flushing a file's directory entry, timestamps, the FSInfo sector and the backup boot sector as bytes; mounting takes the stored count and hint as parameters.
- A stored free count that is wrong on a clean FAT32 volume: the invariant of a mounted volume includes that the count is right.
- Volumes whose table is too small for their clusters, and inactive mirrors with mirroring switched off.
- Volumes that are not regular above the level of `FatOps`: `FileSystem`, files and directories are stated for regular ones.
- Case folding, comparison of names, renaming, splitting of paths and opening by path.
- FatTable.WriteEntry: stated for writes that reach all mirrors, that is on a dirty volume or with the first piece whole; what happens otherwise is stated for the slice.
- FatOps.AllocCluster: the same condition on its first write.
- FatOps.ClusterIterator.Free: the same condition on its first write.
- FatOps.ClusterIterator.Truncate: the same condition on its first write.
- FileSystems.FileSystem.constructor: what the FSInfo sector stores comes as parameters.
- FileSystems.FileSystem.AllocCluster: the same condition on its first write; calls from a file meet it.
- FileSystems.FileSystem.FreeClusterChain: the same condition on its first write.
- FileSystems.FileSystem.TruncateClusterChain: the same condition on its first write.
- Files.File.Read: for a directory the chain must be at most 4 GiB - 1 bytes long, because the 32-bit offset would overflow behind it.
- Files.File.Truncate: only for files with a directory entry, the source panics for others; the same condition on the first write to the table; the size of a directory is not recorded.
- FileUse.Replace: for files whose clusters hold their recorded size, and the condition of Truncate.
- DirStreams.PutInFile: the directory stays a cluster away from 4 GiB.
- DirStreams.PutInRoot: the first field of the slot is written whole or the volume is dirty, which is always so for the parts of a long name.
- Directories.Dir.WriteEntry: directories in chains stay two clusters and 21 slots away from 4 GiB; slots of files are read and written as whole 32-byte units.
- Directories.Dir.RemoveEntry: in the fixed root the first field of its first slot is written whole or the volume is dirty.
- Directories.Dir.Remove: the entry is given, not looked up, its chain is a whole chain other than the directory's own, and the test that a directory is empty is not modelled; the first write is one that ends up where it should.
- Creating.CreateEntry: the entry does not exist yet and has its attributes and first cluster; the `.` and `..` entries of a new directory are not written.
- ShortNames.ShortNameGenerator.FindUnused: bitmaps are sets of digits, and the search must not be an endless one.
- Formatting.FormattedMounts: sectors of 512 bytes, more than 1024 sectors, one or two tables and the default cluster size; other options of the formatter are not modelled.
- VolumeFormat.FormatVolume: the FSInfo sector and the backup boot sector are not written.
- VolumeFormat.FormatAndMount: the parameter block is written at its place; the rest of the boot sector, such as its code, and the FSInfo sector are not modelled.
- VirtQueue.Queue.Send: the queue has 8 entries as the driver's table of free descriptors does; memory fences and the physical addresses of the rings are not modelled.
- VirtQueue.Queue.CollectUsed: the length field of the used ring, which the driver ignores, and waiting for the device are not modelled.
- AddressRanges.Reservations.Reserve: the lock around it and the unimplemented request for a fixed address.
- PpnStack.Allocator.Alloc: one stack of pages; the source has several of equal shape and stops where the model reports that there is none.
- PpnStack.Allocator.Free: reports a full stack, where the source stops.
- DeviceTree.ReadTree: the header, the reserved memory regions and overflow of 32-bit offsets; the structure block is given both as words and as bytes.
- DeviceTree.KernelNode.ReadAll: the final token and the count check of `finish`; tokens without meaning are skipped by the kernel reader only, and the modelled format has none.
