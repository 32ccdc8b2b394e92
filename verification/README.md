# Nachos: a verified model

Nachos is a teaching operating system that runs on a simulated machine. This project models its four
hardest parts in Dafny and proves what they are for. The line numbers below are those of the
`nachos_task1` tree, but for the named Seek, which only `nachos_task2` has.

`dafny verify dfyconfig.toml` checks everything.

**The file storage stack.** `Sectors` (the disk, an array of 1024 sectors of 128 bytes), `Bitmaps`
(the packed map of free sectors), `Blocks` (indirect and double-indirect blocks), `FileHeaders`,
`FileContents` and `OpenFiles` (a file as a flat sequence of bytes over its tree of sectors),
`Ownership` (the invariant of the whole disk), `Directories`, and `FileSystems` (formatting, Create,
Remove, Write). The classes allocate, write and read the sectors in place; what they do is stated on
values: a file is its length and its sequences of index and data sectors, and its content is a
`seq<Byte>`. The main result is that formatting, Remove, every Create that finds a free entry and room
for what the file needs, and every Write, growing or not, that finds such room keep the file system in
order: the marks of the map *stored on the disk* are exactly the disjoint union of all headers, index and
data sectors in use, the stored directory lists exactly the files, and no operation on one file alters the
bytes of another. Sectors are conserved: every growth takes exactly what the file needs, and deallocation
after any sequence of allocations restores the map bit for bit. `Shortages` has what happens otherwise.

**Concurrency.** `Semaphores` (with locks and Mesa conditions), `SynchLists` (the synchronized list),
`ReadersWriters` (the protocol in `OpenFile::Read` and `Write`, and the named Seek), and `Threads` (the
scheduler). Each is a transition system over any number of threads in which a region with interrupts
off is one step, with an inductive invariant and theorems about every run. The classes beside them do
the same steps in place.

**The simulated machine.** `Multipliers`, `WordArithmetic`, `Translation`, `Unaligned`, `Instructions`,
`StepEffects` and `Machines`. A step of the processor is a function of registers, memory and table; the
class `Machine` carries it out in place, and the theorems are about the function: that its traps can be
started again, and, in `StepEffects`, what a step leaves behind in terms of numbers and bits.

**Simulated devices and containers.** `Lists` (linked lists and sorted insertion), `Interrupts` (the
queue of pending interrupts, its firing loop and the clock), `HashTables` (the self-expanding table and
its iterator) and `DiskTimes` (seeking, rotation and the track buffer).

Where the code does not meet what it promises, the model keeps the code:

- `FileHeader::Allocate` checks for the data sectors only. Its contract covers all cases, and
  `NeedIsNecessary` shows that the bound with the index sectors cannot be improved. Between the two bounds
  the code stops, or `Create` and `Write` go on to a disk that no file system in order has, whichever files
  it is said to have; `GoesOn` decides which. `LargeFileRuins` runs into it on a disk just formatted.
- A Create in a full directory, for a file that would fit, grows the directory by sectors that are clear in
  the stored map and then stores the map of the new file over that. If fewer than 4 sectors were clear the
  code stops before that, with the map as it was; otherwise the disk is ruined (`Creation`, `FullRuins`,
  `NeverSound`), as by the eleventh file of every new file system (`EleventhFileRuins`). So a Create that
  ends keeps the file system in order exactly if the name is taken, the map cannot hold header and data, or
  there is a free entry and room for all the file needs.
- The named Seek takes the read semaphore before the write semaphore and so can stop a file for good:
  `DoomBegins` says exactly when, `DoomedForever` that nothing helps, and `SeekDooms` gives a run.
- SRL and SRLV shift a signed number: `ShiftsUnsigned` says exactly when they do what they are for.

## Model

| member | source | states |
|---|---|---|
| Sectors.SynchDisk.ReadSector | nachos_task1/code/filesys/synchdisk.cc:58-64 | a read puts exactly the 128 bytes of the sector in the buffer, and nothing else |
| Sectors.SynchDisk.WriteSector | nachos_task1/code/filesys/synchdisk.cc:76-82 | a write changes exactly one sector |
| Sectors.DecodeOfEncode | nachos_task1/code/filesys/block_for_file.cc:46-53 | words written to a sector as raw memory are read back as the same words |
| Sectors.FewestBlocks | nachos_task1/code/lib/utility.h:25 | so many sectors as are allocated hold the bytes asked for, and no fewer do |
| Bitmaps.BitOfOrBit | nachos_task1/code/lib/bitmap.cc:56-63 | setting a bit of a packed word changes that bit and no other |
| Bitmaps.BitOfAndNotBit | nachos_task1/code/lib/bitmap.cc:73-80 | clearing a bit of a packed word changes that bit and no other |
| Bitmaps.Bitmap.constructor | nachos_task1/code/lib/bitmap.cc:21-36 | all bits of a new map are clear |
| Bitmaps.Bitmap.Mark | nachos_task1/code/lib/bitmap.cc:56-63 | the unpacked map has exactly this bit more |
| Bitmaps.Bitmap.Clear | nachos_task1/code/lib/bitmap.cc:73-80 | the unpacked map has exactly this bit less |
| Bitmaps.Bitmap.Test | nachos_task1/code/lib/bitmap.cc:90-99 | answers the bit of the unpacked map |
| Bitmaps.Bitmap.FindAndSet | nachos_task1/code/lib/bitmap.cc:111-120 | takes the lowest clear bit; answers -1 exactly when none is clear; the number of clear bits drops by one |
| Bitmaps.Bitmap.NumClear | nachos_task1/code/lib/bitmap.cc:129-139 | counts the clear bits |
| Bitmaps.TookCount | nachos_task1/code/lib/bitmap.cc:129-139 | taking distinct clear sectors lowers the number of clear ones by exactly as many |
| Bitmaps.BitsOfFileOfWords | nachos_task1/code/filesys/pbitmap.cc:63-79 | the map stored in its file and fetched again is the same bit for bit |
| Blocks.Indirect.AllocateBlock | nachos_task1/code/filesys/block_for_file.cc:16-32 | fills the free slots from the front with newly marked sectors, as many as fit; refuses exactly when too few are clear, changing nothing |
| Blocks.Indirect.DeallocateBlock | nachos_task1/code/filesys/block_for_file.cc:35-43 | clears the bits of exactly the sectors in its slots, each of them once |
| Blocks.Indirect.ByteConvertToSector | nachos_task1/code/filesys/block_for_file.cc:56-62 | gives the sector in the slot of the offset |
| Blocks.DoubleIndirect.AllocateBlock | nachos_task1/code/filesys/block_for_file.cc:72-95 | extends the tree by exactly the data sectors asked for and the index sectors they need, all newly marked, when the map has room for both; when it has room for the data only, the count falls short and every slot has taken a sector, or the code stops, exactly when there are too few for that |
| Blocks.DoubleIndirect.FillSlot | nachos_task1/code/filesys/block_for_file.cc:81-93 | one turn of that loop |
| Blocks.DoubleIndirect.DeallocateBlock | nachos_task1/code/filesys/block_for_file.cc:98-111 | clears exactly the sectors of the tree, none of them twice |
| Blocks.DoubleIndirect.ByteConvertToSector | nachos_task1/code/filesys/block_for_file.cc:124-132 | gives the data sector at that place in file order |
| Blocks.SameIndexSameData | nachos_task1/code/filesys/block_for_file.cc:56-62 | the index sectors on the disk determine the data sectors and their order |
| FileHeaders.FileHeader.FetchFrom | nachos_task1/code/filesys/filehdr.cc:109-112 | the header in memory has the fields stored in the sector |
| FileHeaders.FileHeader.WriteBack | nachos_task1/code/filesys/filehdr.cc:122-125 | the fields, but for the last slot, are stored in the sector, and no other sector changes |
| FileHeaders.FileHeader.Allocate | nachos_task1/code/filesys/filehdr.cc:50-75 | with room for data and index sectors the file is in order, longer by the size asked for, the bits newly marked are exactly its new sectors, and NumClear has dropped by exactly what it needed; with too few sectors for the data it refuses and changes nothing; in between it stops, or answers yes with data sectors missing and the second slot of the header in use, and which of the two a condition on the sizes decides; in every case no mark is lost and no sector in use changes but the index sectors of the file |
| FileHeaders.AllocateEach | nachos_task1/code/filesys/filehdr.cc:50-75 | after any sequence of allocations on one header, refused ones included, the file has grown by all that were granted, the bits newly marked are exactly its new sectors, and the number of clear ones has dropped by exactly the granted data sectors and the index sectors over them |
| FileHeaders.AllocateEachThenDeallocate | nachos_task1/code/filesys/filehdr.cc:50-99 | deallocation after any such sequence leaves the map as it was before, bit for bit, less the sectors the file had even then; for a file that was empty it is exactly the old map |
| FileHeaders.TakenIsNeed | nachos_task1/code/filesys/filehdr.cc:50-75 | growing a file in order uses up exactly the sectors it needs, and NumClear drops by just that |
| FileHeaders.ShortfallExists | nachos_task1/code/filesys/filehdr.cc:52-55 | there are maps that pass the check and have too few sectors for the index |
| FileHeaders.NeedIsNecessary | nachos_task1/code/filesys/filehdr.cc:52-55 | however a file grows by n data sectors, it uses up the n and the index sectors for them |
| FileHeaders.FileHeader.Deallocate | nachos_task1/code/filesys/filehdr.cc:85-99 | clears exactly the data and index sectors of the file, none of them twice |
| FileHeaders.FileHeader.ByteToSector | nachos_task1/code/filesys/filehdr.cc:138-146 | gives the data sector of the byte |
| FileHeaders.BlockOfByte | nachos_task1/code/filesys/filehdr.cc:138-146 | every byte below the length has a data sector; two bytes have the same exactly when they are in the same 128-byte block; it is never an index sector |
| FileHeaders.SectorsDistinct | nachos_task1/code/filesys/filehdr.cc:50-75 | the sectors of a file are distinct and marked |
| FileHeaders.DataFits | nachos_task1/code/filesys/filehdr.cc:138-146 | a file never has more data sectors than one double-indirect block reaches, so the offset that is passed on unreduced is right |
| FileContents.Clamp | nachos_task1/code/filesys/openfile.cc:186-191 | what is moved is the longest transfer possible: no more than asked for, none of it behind the end of the file, and any number of bytes for which both hold is no more |
| FileContents.EdgesSuffice | nachos_task1/code/filesys/openfile.cc:226-237 | reading in the first and last sector where they are partly overwritten is enough, whatever the new buffer held |
| FileContents.WrittenContent | nachos_task1/code/filesys/openfile.cc:238-241 | writing the prepared buffer splices the new bytes into the content of the file |
| FileContents.DataWriteKeepsFile | nachos_task1/code/filesys/openfile.cc:238-241 | writing data sectors leaves the index of the file in order |
| OpenFiles.FetchMap | nachos_task1/code/filesys/pbitmap.cc:63-66 | the map in memory becomes the stored one |
| OpenFiles.StoreMap | nachos_task1/code/filesys/pbitmap.cc:76-79 | the stored map becomes the one in memory, and only the sectors of the map file change |
| OpenFiles.OpenFile.constructor | nachos_task1/code/filesys/openfile.cc:32-38 | an open file holds the header of its file, at position 0 |
| OpenFiles.OpenFile.ReadAt | nachos_task1/code/filesys/openfile.cc:179-208 | puts in the buffer the part of the flat content from the position on, as long as possible within the request and the file, and leaves the rest of the buffer alone |
| OpenFiles.OpenFile.Read | nachos_task1/code/filesys/openfile.cc:78-83 | the same at the position, which moves by what was read |
| OpenFiles.OpenFile.PrepareBuffer | nachos_task1/code/filesys/openfile.cc:222-237 | the buffer holds the new bytes and, in the same blocks, the old ones around them |
| OpenFiles.OpenFile.WriteAt | nachos_task1/code/filesys/openfile.cc:211-245 | the flat content changes in exactly the range from the position on, as long as possible within the request and the file; no sector outside the touched blocks changes |
| OpenFiles.OpenFile.Grow | nachos_task1/code/filesys/openfile.cc:88-95 | the file keeps its bytes and gets numBytes more in exactly the sectors it needs; the invariant of the whole file system holds again, and every other file keeps its content. A map without room for the data fails the assertion and changes nothing; one without room for the index sectors ends, as a condition on the sizes decides, in a failed assertion or in a header that no file system in order has |
| OpenFiles.OpenFile.StoreGrown | nachos_task1/code/filesys/openfile.cc:92-93 | header and map written back after the allocation, in order or short |
| OpenFiles.OpenFile.Write | nachos_task1/code/filesys/openfile.cc:85-99 | the content is the old one, grown exactly if it is too short, with as many of the new bytes as fit in the grown file spliced in at the position, which moves by as many; all else as for Grow |
| Ownership.NoSharedSector | nachos_task1/code/filesys/filesys.cc:200-246 | no sector has two uses: files have disjoint sectors, and a file its own only once |
| Ownership.MarkedIffUsed | nachos_task1/code/filesys/filesys.cc:200-246 | the stored map marks exactly the sectors that are a header, an index or a data sector of some file |
| Ownership.ContentFrame | nachos_task1/code/filesys/openfile.cc:179-208 | the content of a file depends on its own data sectors only |
| Ownership.ContentGrown | nachos_task1/code/filesys/openfile.cc:85-99 | growing keeps the bytes a file had |
| Ownership.AllocatedExtends | nachos_task1/code/filesys/filehdr.cc:50-75 | after allocating for one file and writing its header that file is in order, with the newly marked sectors its own, and nothing outside it has changed |
| Ownership.OthersKept | nachos_task1/code/filesys/filehdr.cc:50-75 | and every other file is still in order, with the same content |
| Ownership.HeaderDetermines | nachos_task1/code/filesys/filehdr.cc:109-112 | a header on the disk stands for one file only, whatever the map says |
| Ownership.ShortHeaderBreaks | nachos_task1/code/filesys/filehdr.cc:60-72 | a header whose second slot is in use heads no file of any file system in order |
| Ownership.GrownFS | nachos_task1/code/filesys/openfile.cc:85-99 | allocation, header and map written back: the invariant holds for the grown file and all others |
| Ownership.DataWriteKeepsFS | nachos_task1/code/filesys/openfile.cc:238-241 | writing data sectors of one file keeps the invariant and the content of every other file |
| Directories.SameNameIsSameKey | nachos_task1/code/filesys/directory.cc:104-112 | comparing at most nine characters with strncmp is equality of the names cut or padded to nine |
| Directories.HeldByBoth | nachos_task1/code/filesys/directory.cc:104-154 | an entry made for one name is taken for that of another exactly if their first nine characters are the same sequence; so a name of fewer characters stands for itself only |
| Directories.FoundByPrefix | nachos_task1/code/filesys/directory.cc:104-112 | so among entries made for given names a name is found exactly if it has the first nine characters of one of those in use |
| Directories.HoldsSome | nachos_task1/code/filesys/directory.cc:145-154 | every name stored as strncpy leaves it stands for some name |
| Directories.Directory.constructor | nachos_task1/code/filesys/directory.cc:38-44 | no entry is in use |
| Directories.Directory.FindIndex | nachos_task1/code/filesys/directory.cc:104-112 | the place of an entry in use that holds the first nine characters of the name and zeros behind them, -1 exactly if there is none |
| Directories.Directory.Find | nachos_task1/code/filesys/directory.cc:124-131 | the sector in that entry, -1 exactly if there is none |
| Directories.Directory.JudgeDirectory | nachos_task1/code/filesys/directory.cc:242-249 | whether that entry is there and a directory |
| Directories.Directory.Add | nachos_task1/code/filesys/directory.cc:145-173 | refuses exactly when an entry in use holds the first nine characters of the name (or there is no table); otherwise the first free entry, after doubling if none is free, holds them and zeros, and no other entry changes |
| Directories.Directory.Remove | nachos_task1/code/filesys/directory.cc:184-192 | an entry in use that holds the first nine characters of the name is free and otherwise as it was; no other entry changes |
| Directories.Directory.FetchFrom | nachos_task1/code/filesys/directory.cc:64-77 | the table is the one stored in the file |
| Directories.Directory.WriteBack | nachos_task1/code/filesys/directory.cc:87-93 | the file then stores the table; it grows exactly when it was too short, by exactly what it needs, and the file system stays in order; when the growth fails for lack of data sectors only the number of entries has been stored |
| Directories.Directory.ExpandSize | nachos_task1/code/filesys/directory.cc:252-265 | twice the entries, the old ones as they were and the new ones free |
| Directories.OtherEntries | nachos_task1/code/filesys/directory.cc:145-192 | writing the bytes of one entry leaves the other entries as they are |
| FileSystems.FileSystem.constructor | nachos_task1/code/filesys/filesys.cc:108-169 | formatting gives a file system in order with two files, the map and an empty directory, even though the directory outgrows its file; 11 sectors are in use |
| FileSystems.FileSystem.OpenDirectory | nachos_task1/code/filesys/filesys.cc:215-217 | the directory read from the disk has the entries that the disk stores |
| FileSystems.FileSystem.Create | nachos_task1/code/filesys/filesys.cc:201-246 | a name whose first nine characters some entry in use holds, or a map that cannot hold header and data: no, and the disk is identical. With room for all the file needs and a free directory entry: yes, one entry, one header and exactly the sectors the file needs are new, no other file has changed, and the file system is in order. Otherwise a failed assertion, with the stored map and all files as they were, or yes and a disk that no file system in order has: with a full directory the assertion fails exactly when fewer than 4 sectors were clear, with too few index sectors exactly when the allocation does not go on |
| FileSystems.FileSystem.CreateNew | nachos_task1/code/filesys/filesys.cc:221-243 | the part for a name that is free |
| FileSystems.FileSystem.AllocateNew | nachos_task1/code/filesys/filesys.cc:229-241 | nothing is written but what the allocation itself writes to clear sectors, unless it has answered yes |
| FileSystems.FileSystem.TryAllocate | nachos_task1/code/filesys/filesys.cc:229-230 | that allocation, of a new header: whole, short, refused or stopped |
| FileSystems.FileSystem.Enter | nachos_task1/code/filesys/filesys.cc:235-238 | header, directory and map written in this order bring the file system to order again, or, in a full directory or with a short header, out of it for good |
| FileSystems.FileSystem.EnterDirectory | nachos_task1/code/filesys/filesys.cc:235-237 | the first two of them |
| Shortages.FullRuins | nachos_task1/code/filesys/filesys.cc:222-238 | when a full directory has grown by sectors that are clear in the stored map, and the map of the new file is stored over that, no file system in order, whichever files it has and whoever owns its sectors, has both the directory and the file |
| Shortages.ShortRuins | nachos_task1/code/filesys/filesys.cc:230-238 | nor when the header came out of the allocation with its second slot in use |
| FileSystems.NeverSound | nachos_task1/code/filesys/filesys.cc:201-246 | after either, no choice of files makes the disk a sound file system again, as the stored directory leads to the new file |
| FileSystems.FullGrowth | nachos_task1/code/filesys/directory.cc:87-93 | a full directory needs four more data sectors and no index sector: its growth is done or stops the code, exactly according to whether four are clear in the stored map |
| FileSystems.EleventhFileRuins | nachos_task1/code/filesys/filesys.cc:201-246 | it happens: formatting and ten files, and the eleventh, empty one is created with the answer yes on a disk that is ruined |
| FileSystems.LargeFileRuins | nachos_task1/code/filesys/filesys.cc:201-246 | and right after formatting: a first file of 1012 data sectors is created with the answer yes, and none of them |
| FileSystems.FileSystem.Remove | nachos_task1/code/filesys/filesys.cc:345-379 | keeps the file system in order; succeeds exactly when an entry in use holds the first nine characters of the name; then the bits of the file and its header are clear, its entry is free, and no other file has changed |
| FileSystems.FileSystem.FreeFile | nachos_task1/code/filesys/filesys.cc:365-369 | the map fetched, less exactly the sectors of the file and its header |
| FileSystems.FileSystem.WriteFile | nachos_task1/code/filesys/openfile.cc:85-99 | a write to any open file moves as many bytes as fit in the file as grown, and keeps the file system in order and every other file and directory entry; one that must grow the file takes exactly the sectors it needs, changes nothing if the data does not fit, and with too few index sectors ends in a failed assertion or a header that no file system in order has |
| FileSystems.ListsMore | nachos_task1/code/filesys/filesys.cc:201-246 | with a new entry for a new header the directory lists exactly the files |
| FileSystems.ListsFewer | nachos_task1/code/filesys/filesys.cc:345-379 | without the entry of a removed file the directory lists exactly the files left |
| FileSystems.FormattedFS | nachos_task1/code/filesys/filesys.cc:108-169 | the headers and the map of a formatted disk satisfy the invariant |
| FileSystems.Removed | nachos_task1/code/filesys/filesys.cc:345-379 | with the bits of one file cleared and the map stored, the invariant holds for the files left |
| FileSystems.RemoveDone | nachos_task1/code/filesys/filesys.cc:345-379 | and for the directory stored after that |
| FileSystems.DirectoryEntered | nachos_task1/code/filesys/filesys.cc:235-238 | writing the directory before the map leaves the new file and all others intact |
| FileSystems.MapEntered | nachos_task1/code/filesys/filesys.cc:235-238 | writing the map last restores the invariant |
| Semaphores.TryPKeepsInv | nachos_task1/code/threads/synch.cc:75-92 | a round of P keeps: no thread sleeps twice, and while threads sleep there is a woken one for every unit |
| Semaphores.VKeepsInv | nachos_task1/code/threads/synch.cc:102-117 | V keeps it |
| Semaphores.RunsKeepCount | nachos_task1/code/threads/synch.cc:75-117 | over every run, barging included, the value is the initial one plus the Vs less the completed Ps, and if threads sleep although there are units, as many have been woken |
| Semaphores.WokenInOrder | nachos_task1/code/threads/synch.cc:75-117 | over every run threads are woken in the order in which they went to sleep, none left out |
| Semaphores.Semaphore.TryPass | nachos_task1/code/threads/synch.cc:75-92 | one round of P: with a positive value it goes down by one; else the thread is last in the queue |
| Semaphores.Semaphore.Signal | nachos_task1/code/threads/synch.cc:102-117 | V: the longest sleeper, if any, is made ready, and the value goes up by one |
| Semaphores.Lock.TryAcquire | nachos_task1/code/threads/synch.cc:181-185 | the holder is the current thread exactly if it got the unit |
| Semaphores.Lock.Release | nachos_task1/code/threads/synch.cc:198-203 | no holder, one unit, the longest sleeper ready |
| Semaphores.Condition.Enqueue | nachos_task1/code/threads/synch.cc:244-251 | a waiting thread gets a semaphore of its own, last in the queue |
| Semaphores.Condition.Signal | nachos_task1/code/threads/synch.cc:273-283 | exactly the first semaphore in the queue, if any, gets a V |
| Semaphores.Condition.Broadcast | nachos_task1/code/threads/synch.cc:292-297 | every semaphore in the queue gets exactly one V, and the queue is empty |
| SynchLists.KeepsInv | nachos_task1/code/threads/synchlist.cc:51-81 | every step of every producer or consumer keeps the invariant of lock, condition and list |
| SynchLists.RunsKeepInv | nachos_task1/code/threads/synchlist.cc:51-81 | so every run does |
| SynchLists.QueueOrder | nachos_task1/code/threads/synchlist.cc:51-81 | in every interleaving the items handed out, followed by those listed, are the items put in, in order |
| SynchLists.Exclusion | nachos_task1/code/threads/synch.cc:181-203 | at most one thread is between Acquire and Release, and every assertion that the current thread holds the lock is true |
| SynchLists.KeepsWake | nachos_task1/code/threads/synch.cc:244-283 | each step keeps: while consumers are queued, the signalled ones and what the lock owner still owes cover the list |
| SynchLists.NoLostWakeup | nachos_task1/code/threads/synch.cc:244-297 | when the lock is free and consumers are queued, at least as many consumers have been signalled and not yet run as there are items |
| SynchLists.Progress | nachos_task1/code/threads/synchlist.cc:51-81 | no run gets stuck: unless all threads under way are consumers waiting for an item, one can go on to its next statement |
| ReadersWriters.KeepsInv | nachos_task1/code/filesys/openfile.cc:101-151 | every statement of every client keeps the invariant of the two semaphores and the read count |
| ReadersWriters.Safety | nachos_task1/code/filesys/openfile.cc:101-151 | in every reachable state, named Seeks included, the read count is the number of readers between entry and exit, at most one client writes, and none while another reads |
| ReadersWriters.ReaderHolds | nachos_task1/code/filesys/openfile.cc:105-125 | a reader inside shares the readers' hold of the write semaphore |
| ReadersWriters.NoDeadlock | nachos_task1/code/filesys/openfile.cc:101-151 | with reads and writes alone some client under way can always go on |
| ReadersWriters.Progress | nachos_task2/code/filesys/openfile.cc:65-162 | with named Seeks too, some client can go on unless a seeker holds the read semaphore while the readers hold the write semaphore |
| ReadersWriters.DoomBegins | nachos_task2/code/filesys/openfile.cc:65-73 | that state is entered exactly when a seeker passes the read semaphore while the read count is positive |
| ReadersWriters.DoomStays | nachos_task2/code/filesys/openfile.cc:65-73 | no step leaves it, ends an operation under way or changes the read count |
| ReadersWriters.DoomedForever | nachos_task2/code/filesys/openfile.cc:65-73 | so in no continuation of the run does an operation under way end |
| ReadersWriters.SeekDooms | nachos_task2/code/filesys/openfile.cc:65-73 | and it happens: a run of one reader and one seeker |
| Threads.KeepsInv | nachos_task1/code/threads/scheduler.cc:56-167 | Fork, Yield, Finish, rounds of P, Vs, dispatches and clean-ups keep every thread in its one place |
| Threads.Partition | nachos_task1/code/threads/thread.cc:92-256 | in every run each live thread is in exactly one of: the processor (RUNNING), the ready list once (READY), the queue of one semaphore once (BLOCKED) |
| Threads.Assertions | nachos_task1/code/threads/scheduler.cc:104-167 | toBeDestroyed is empty whenever a thread finishes; what is deleted is not running and in no list; and no thread is appended to a list that has it, nor while another has it: not the running one, which yields or waits, not a forked one, not the one that V wakes |
| Threads.LineGrows | nachos_task1/code/threads/scheduler.cc:56-84 | the threads dispatched so far followed by the ready list only ever grow at the end |
| Threads.FirstComeFirstServed | nachos_task1/code/threads/scheduler.cc:56-84 | a thread at position k of the ready list is dispatched after exactly k others |
| Threads.IdleLoopKeepsInv | nachos_task1/code/threads/thread.cc:241-256 | the loop in Sleep keeps the partition, even if a handler wakes the sleeping thread itself |
| Threads.SleepLoopIsRun | nachos_task1/code/threads/thread.cc:241-256 | the whole loop is a run of single steps: giving up the processor, then handlers and finding the next thread |
| Threads.IdleLoopHalts | nachos_task1/code/threads/thread.cc:247-248 | the machine halts exactly if no thread waits on any semaphore that the interrupt handlers will signal |
| Threads.RunThenRun | nachos_task1/code/threads/thread.cc:92-256 | a run, and one from where it ends, are one run |
| Threads.Kernel.Fork | nachos_task1/code/threads/thread.cc:93-107 | the new thread is ready, last in line |
| Threads.Kernel.Yield | nachos_task1/code/threads/thread.cc:203-218 | nothing if no other is ready; else the current thread is last in line and the first has the processor |
| Threads.Kernel.Finish | nachos_task1/code/threads/thread.cc:173-182 | the finishing thread is in no list and left to be destroyed, and the first ready one has the processor; with none ready the machine halts exactly if no thread waits for what the interrupt handlers will signal |
| Threads.Kernel.Sleep | nachos_task1/code/threads/thread.cc:241-256 | idles until some thread is ready and dispatches the first, or halts; the history of the kernel grows by the run that this is, so what holds over every run holds of the kernel |
| Threads.Kernel.TryPass | nachos_task1/code/threads/synch.cc:75-92 | a round of P by the current thread: with a positive value it goes down by one and nothing else changes; else the thread is last in the queue and the first ready one has the processor, and with none ready the machine halts exactly if no thread, this one included, waits for what the handlers will signal |
| Threads.Kernel.Signal | nachos_task1/code/threads/synch.cc:102-117 | V: the value goes up by one, and the longest sleeper, if any, moves from the queue to the end of the ready list |
| Threads.Kernel.FindNextToRun | nachos_task1/code/threads/scheduler.cc:75-84 | takes the first ready thread, if any |
| Threads.Kernel.Run | nachos_task1/code/threads/scheduler.cc:104-150 | the next thread runs; a finishing one is kept for deletion, and the place for it was free |
| Threads.Kernel.CheckToBeDestroyed | nachos_task1/code/threads/scheduler.cc:161-167 | the finished thread is gone, and it was not the current one |
| Lists.List.Append | nachos_task1/code/lib/list.cc:75-89 | the chain and its items have one more at the end; first, last and count are right |
| Lists.List.Prepend | nachos_task1/code/lib/list.cc:98-112 | one more at the front |
| Lists.List.RemoveFront | nachos_task1/code/lib/list.cc:125-142 | the first item, and the chain without it |
| Lists.List.Remove | nachos_task1/code/lib/list.cc:151-178 | the item is gone, the others keep their order, and last is right if it was the last |
| Lists.List.IsInList | nachos_task1/code/lib/list.cc:187-197 | true exactly for the items of the chain |
| Lists.List.Insert | nachos_task1/code/lib/list.cc:234-260 | the chain stays intact and its items become those of stable insertion |
| Lists.InsertedSorted | nachos_task1/code/lib/list.cc:234-260 | insertion keeps a list sorted, for any comparison that orders the items |
| Lists.InsertedItems | nachos_task1/code/lib/list.cc:234-260 | insertion adds exactly one item |
| Lists.InsertedLast | nachos_task1/code/lib/list.cc:234-260 | an item goes behind all items with its key |
| Lists.InsertedAllIsStableSort | nachos_task1/code/lib/list.cc:356-383 | inserting one by one sorts: sorted, the same items, equal keys in the order of their insertion |
| Lists.StableSortUnique | nachos_task1/code/lib/list.cc:356-383 | there is only one such order |
| Lists.List.InsertAndDrain | nachos_task1/code/lib/list.cc:363-374 | inserting items and removing them from the front returns their stable sort and leaves the list empty |
| Interrupts.FireFirstUsesUp | nachos_task1/code/machine/interrupt.cc:314-319 | each round of the firing loop leaves one entry less that is due, however much its handler schedules: the loop ends |
| Interrupts.FireDueKeepsInv | nachos_task1/code/machine/interrupt.cc:281-322 | after the loop nothing is due; firing over the whole run stays in order and none is lost |
| Interrupts.FiresWhatIsDue | nachos_task1/code/machine/interrupt.cc:314-319 | the loop fires exactly the entries due when it began, in order, at the current time |
| Interrupts.RunsKeepOrder | nachos_task1/code/machine/interrupt.cc:257-322 | over every run nothing fires before its time, scheduled times come up in order, whatever was scheduled is pending or fired once, and between operations nothing is overdue |
| Interrupts.RunsRecord | nachos_task1/code/machine/interrupt.cc:257-322 | over every run there is one entry for each request, of a device or of a handler at the time it is called: with its own handler, at the time of the request and the delay asked for |
| Interrupts.RequestsAreAnswered | nachos_task1/code/machine/interrupt.cc:257-322 | over every run a request made at time t with delay d has not fired while the clock is before t + d, and has fired once, with its own handler, when the clock has reached t + d |
| Interrupts.YieldIsAskedFor | nachos_task1/code/machine/interrupt.cc:189-194 | the flag for a context switch is set exactly if it was, or a handler that has fired asked for it |
| Interrupts.Interrupt.Schedule | nachos_task1/code/machine/interrupt.cc:257-266 | the pending interrupts are one more, at the current time and the delay asked for, with the handler given; it goes behind those for the same time |
| Interrupts.Interrupt.FireAllDue | nachos_task1/code/machine/interrupt.cc:313-320 | the loop terminates, with nothing due |
| Interrupts.Interrupt.CheckIfDue | nachos_task1/code/machine/interrupt.cc:281-322 | fires exactly if the first entry is due or the clock may be advanced to it; skipped time is idle time |
| Interrupts.Interrupt.OneTick | nachos_task1/code/machine/interrupt.cc:148-176 | time moves by 10 ticks, counted as system time, in system mode, and otherwise by 1, counted as user time; what became due has fired; the thread yields exactly if some handler has asked for it since the last time |
| Interrupts.Interrupt.SetLevel | nachos_task1/code/machine/interrupt.cc:124-136 | one tick passes exactly when interrupts go from off to on |
| Interrupts.Interrupt.Idle | nachos_task1/code/machine/interrupt.cc:208-227 | time jumps to the earliest pending interrupt; the machine halts exactly when there is none |
| HashTables.HashTable.Insert | nachos_task1/code/lib/hash.cc:110-124 | refines map update; grows fourfold exactly when there are three items a bucket on average, so that there are never more than that |
| HashTables.HashTable.ReHash | nachos_task1/code/lib/hash.cc:136-153 | the same map in four times the buckets, every item where its key hashes to; both sanity checks pass |
| HashTables.HashTable.MoveAll | nachos_task1/code/lib/hash.cc:145-150 | every item is moved once |
| HashTables.HashTable.Find | nachos_task1/code/lib/hash.cc:193-198 | refines map lookup |
| HashTables.HashTable.FindInBucket | nachos_task1/code/lib/hash.cc:168-181 | an item with the key, or none exactly if the bucket has none |
| HashTables.HashTable.Remove | nachos_task1/code/lib/hash.cc:210-223 | refines map removal |
| HashTables.HashTable.SanityCheck | nachos_task1/code/lib/hash.cc:272-288 | holds exactly when every item is in its bucket and the count is right |
| HashTables.TableAdd | nachos_task1/code/lib/hash.cc:121-122 | appending to the bucket of the key keeps the buckets in step with the map |
| HashTables.TableRemove | nachos_task1/code/lib/hash.cc:217-219 | so does removing |
| HashTables.HashIterator.Next | nachos_task1/code/lib/hash.cc:349-360 | moves past exactly one item |
| HashTables.VisitAll | nachos_task1/code/lib/hash.cc:331-360 | a loop over the iterator meets every item exactly once |
| HashTables.FlatIsContents | nachos_task1/code/lib/hash.cc:331-360 | bucket by bucket, the table has each item of the map exactly once |
| DiskTimes.ModuloDiffIsLeast | nachos_task1/code/machine/disk.cc:200-206 | the least number of sectors after which the head is over the wanted one |
| DiskTimes.BufferTest | nachos_task1/code/machine/disk.cc:238-243 | the test for the track buffer holds exactly when the sector has passed under the head since the buffer was started |
| DiskTimes.FirstPass | nachos_task1/code/machine/disk.cc:246-249 | the transfer starts at the first boundary at which the sector comes under the head |
| DiskTimes.SeekCrossesTracks | nachos_task1/code/machine/disk.cc:177-181 | the head crosses a track of 32 sectors every 500 ticks: a seek is 500 times the number of tracks between two sectors |
| DiskTimes.SeeksAddUp | nachos_task1/code/machine/disk.cc:177-181 | seeking there takes as long as seeking back, and a seek can stop over at any sector on its way |
| DiskTimes.Rotates | nachos_task1/code/machine/disk.cc:200-206 | neighbouring sectors come under the head 500 ticks apart, each of them once in a turn of 32 |
| DiskTimes.Disk.TimeToSeek | nachos_task1/code/machine/disk.cc:177-191 | 500 ticks for each track crossed, and the wait for the first sector boundary after that |
| DiskTimes.Disk.ComputeLatency | nachos_task1/code/machine/disk.cc:230-250 | one transfer if buffered; otherwise the transfer starts at the earliest time at which the sector comes under the head once all tracks have been crossed: the latency is at least 500 for each track and 500, and less than a turn more |
| DiskTimes.Disk.UpdateLast | nachos_task1/code/machine/disk.cc:259-268 | the buffer starts at the first boundary when all tracks have been crossed, and stays if there are none |
| DiskTimes.Disk.StartRequest | nachos_task1/code/machine/disk.cc:114-151 | takes as long as ComputeLatency says; keeps: the track buffer starts at a sector boundary and before the request is done |
| Multipliers.MultiplyUnsigned | nachos_task1/code/machine/mipssim.cc:795-814 | the loop with its carries and its early exit gives the exact 64-bit unsigned product |
| Multipliers.Multiply | nachos_task1/code/machine/mipssim.cc:772-828 | hi and lo are the exact unsigned product, or the exact signed one in two's complement, the most negative operand included |
| Multipliers.AddWithCarry | nachos_task1/code/machine/mipssim.cc:800-804 | the carry test on the low word adds 64-bit numbers exactly |
| Multipliers.NegatePair | nachos_task1/code/machine/mipssim.cc:818-824 | complementing both words and adding one with its carry negates the pair |
| Translation.StaysInFrame | nachos_task1/code/machine/translate.cc:185-251 | a translated access stays in one frame and in physical memory, so the assertion holds |
| Translation.TlbRefinesPageTable | nachos_task1/code/machine/translate.cc:204-230 | a TLB whose valid entries agree with the page table gives a page fault or the page table's result |
| Translation.TranslateKeepsFrames | nachos_task1/code/machine/translate.cc:244-246 | setting use and dirty bits changes no translation |
| Translation.ReadAfterWrite | nachos_task1/code/machine/translate.cc:86-167 | what is written is read back, as much of it as the size holds |
| Translation.WriteChangesOnly | nachos_task1/code/machine/translate.cc:136-167 | with no frame mapped twice, a write changes exactly the virtual bytes asked for |
| Translation.ReadGivesBytes | nachos_task1/code/machine/translate.cc:86-120 | a word read is the four virtual bytes, lowest first |
| Translation.ReadGivesEachByte | nachos_task1/code/machine/translate.cc:86-120 | so are a byte, as a signed number, and a half word, as an unsigned one |
| Translation.TranslatedByEntry | nachos_task1/code/machine/translate.cc:185-251 | an access is translated exactly if a valid entry of its page serves it, to the frame of that entry, whose use bit is set, and its dirty bit too if it is a write |
| Translation.FaultOf | nachos_task1/code/machine/translate.cc:193-241 | otherwise it faults: for a page beyond the table or an unaligned address, for a page without valid entry, for a write to a read-only page, or for a frame that is not there, in this order |
| Translation.BitsRecordAccesses | nachos_task1/code/machine/translate.cc:244-246 | after any sequence of accesses exactly those entries have their use bit set that had it or served one, exactly those their dirty bit that had it or served a write, and nothing else has changed |
| Unaligned.StoreLeftBytes | nachos_task1/code/machine/mipssim.cc:579-597 | which bytes SWL merges |
| Unaligned.StoreRightBytes | nachos_task1/code/machine/mipssim.cc:640-656 | which bytes SWR merges |
| Unaligned.LoadLeftBytes | nachos_task1/code/machine/mipssim.cc:343-361 | which bytes LWL merges |
| Unaligned.LoadRightBytes | nachos_task1/code/machine/mipssim.cc:396-415 | which bytes LWR merges |
| Unaligned.UnalignedStore | nachos_task1/code/machine/mipssim.cc:552-668 | SWR A and SWL A+3 change exactly the four bytes from A on, to the word, across pages and around the end of the address space too |
| Unaligned.UnalignedLoad | nachos_task1/code/machine/mipssim.cc:312-418 | LWR A and LWL A+3 assemble the word at A |
| Instructions.StoresUnalignedWord | nachos_task1/code/machine/mipssim.cc:552-668 | the same for two instructions of a program, with their fetches |
| Instructions.LoadsUnalignedWord | nachos_task1/code/machine/mipssim.cc:312-418 | the same for two instructions, the second in the delay slot of the first |
| Instructions.DecodeOfR | nachos_task1/code/machine/mipssim.cc:726-762 | decoding a register-format word finds every field |
| Instructions.DecodeOfI | nachos_task1/code/machine/mipssim.cc:726-762 | decoding an immediate-format word finds the registers and the signed immediate |
| Instructions.DecodeOfJ | nachos_task1/code/machine/mipssim.cc:726-762 | decoding a jump finds its target |
| Instructions.DecodeOfSpecial | nachos_task1/code/machine/mipssim.h:141-150 | what an assembler writes for an operation is decoded to this operation: with a function code |
| Instructions.DecodeOfImmediate | nachos_task1/code/machine/mipssim.h:117-134 | with a main code, or as a branch that has its kind in a register field |
| Instructions.DecodeOfJump | nachos_task1/code/machine/mipssim.h:117-118 | and as a jump |
| Instructions.OneCodeEach | nachos_task1/code/machine/mipssim.cc:726-762 | nothing else is decoded to it |
| WordArithmetic.OverflowTests | nachos_task1/code/machine/mipssim.cc:157-175 | the tests on sign bits find exactly the sums and differences that do not fit in 32 bits |
| WordArithmetic.BitwiseOperations | nachos_task1/code/machine/mipssim.cc:185-191 | AND, OR, XOR and complement work on each bit by itself |
| WordArithmetic.ShiftLeftBit | nachos_task1/code/machine/mipssim.cc:470-477 | a shift to the left moves the bits up and zeros in |
| WordArithmetic.ShiftRightBit | nachos_task1/code/machine/mipssim.cc:511-530 | a shift to the right moves the bits down and copies of the sign in |
| WordArithmetic.ShiftRightIsLogical | nachos_task1/code/machine/mipssim.cc:520-530 | so SRL and SRLV shift the unsigned word exactly when it is not negative or the distance is 0 |
| StepEffects.StepTakesEffect | nachos_task1/code/machine/mipssim.cc:694-718 | what an instruction writes to a register, to HI and LO or to NextPC is there after its step, unless the register is 0 or a load for it was pending; no other register changes |
| StepEffects.SumOrTrap | nachos_task1/code/machine/mipssim.cc:157-175 | a step of ADD, ADDI or SUB leaves the exact result, or traps exactly when it does not fit in a word |
| StepEffects.Multiplies | nachos_task1/code/machine/mipssim.cc:436-444 | after a step of MULT or MULTU the pair HI, LO is the exact signed or unsigned product |
| StepEffects.Divides | nachos_task1/code/machine/mipssim.cc:227-235 | after a step of DIV, LO times the divisor plus HI is the dividend, HI is smaller than the divisor and has the sign of the dividend; but for the one quotient that is no word, and zeros for a divisor of zero |
| StepEffects.DividesUnsigned | nachos_task1/code/machine/mipssim.cc:237-249 | the same after DIVU, of unsigned words |
| StepEffects.WorksOnBits | nachos_task1/code/machine/mipssim.cc:185-191 | every bit of the result of AND, OR, XOR, NOR and their immediate forms |
| StepEffects.ShiftsBits | nachos_task1/code/machine/mipssim.cc:470-477 | every bit of the result of the shifts and LUI |
| StepEffects.ShiftsUnsigned | nachos_task1/code/machine/mipssim.cc:520-530 | SRL and SRLV divide the unsigned word by the power of two exactly when it is not negative as a signed one or the distance is 0 |
| StepEffects.SumsModulo | nachos_task1/code/machine/mipssim.cc:177-183 | ADDU, ADDIU and SUBU leave the result modulo 2^32 and never trap |
| StepEffects.Compares | nachos_task1/code/machine/mipssim.cc:479-509 | SLT and SLTI leave 1 or 0 by a comparison of signed numbers, SLTU and SLTIU of unsigned ones |
| StepEffects.Moves | nachos_task1/code/machine/mipssim.cc:420-434 | MFHI, MFLO, MTHI and MTLO move their word |
| StepEffects.AlwaysTraps | nachos_task1/code/machine/mipssim.cc:670-687 | a system call traps, and so does what is no instruction |
| StepEffects.Branches | nachos_task1/code/machine/mipssim.cc:193-225 | after BEQ, BNE, BGEZ, BGTZ, BLEZ and BLTZ NextPC is as many words further as the immediate says if the registers are equal, different, not negative, positive, not positive, negative, and otherwise one word further |
| StepEffects.BranchesAndLinks | nachos_task1/code/machine/mipssim.cc:198-220 | BGEZAL and BLTZAL leave the address behind the delay slot in R31, branch or not; if R31 is the operand, it is this address that is compared |
| StepEffects.JumpsToTarget | nachos_task1/code/machine/mipssim.cc:251-255 | after J and JAL NextPC is the 26-bit word target in the 256 megabytes of the address behind the delay slot, which JAL leaves in R31 |
| StepEffects.JumpsToRegister | nachos_task1/code/machine/mipssim.cc:257-261 | after JR and JALR NextPC is the register; JALR leaves the address behind the delay slot in its destination first, even if it is the same register |
| StepEffects.FallsThrough | nachos_task1/code/machine/mipssim.cc:149-150 | after any other instruction NextPC is one word further |
| StepEffects.OthersKept | nachos_task1/code/machine/mipssim.cc:121-701 | no instruction that completes changes any register but its own destinations and that of a pending load, nor, unless it is a store, a byte of memory |
| StepEffects.LoadsBytes | nachos_task1/code/machine/mipssim.cc:263-310 | after LB, LBU, LH, LHU and LW the pending load is the virtual bytes at the address, lowest first, extended with the sign or with zeros |
| StepEffects.StoresBytes | nachos_task1/code/machine/mipssim.cc:458-550 | after SB, SH and SW the virtual bytes at the address are the lowest of the register, and no other virtual byte has changed |
| StepEffects.AccessTraps | nachos_task1/code/machine/mipssim.cc:263-310 | these trap exactly if the address is unaligned or cannot be translated, and leave it in BadVAddr |
| StepEffects.FetchTraps | nachos_task1/code/machine/mipssim.cc:135-136 | an instruction that cannot be fetched traps with its address in BadVAddr |
| WordArithmetic.DivisionIsExact | nachos_task1/code/machine/mipssim.cc:227-235 | a quotient rounded towards zero leaves a remainder with the sign of the dividend, both words but for one quotient |
| Instructions.TrapsAreRestartable | nachos_task1/code/machine/mipssim.cc:121-701 | a trap of any instruction leaves memory, the program counters and all registers as they were, but for completing the pending load |
| Instructions.StepsSettle | nachos_task1/code/machine/mipssim.cc:694-718 | after every step register 0 is zero and LoadReg is legal; a pending load is done by the end of the next step, trapping or not |
| Instructions.DelaySlot | nachos_task1/code/machine/mipssim.cc:696-700 | a completed instruction is followed by the one at NextPC, a branch target comes only after that, and NextPC moves on by four unless the instruction is a jump or branch |
| Instructions.SameSteps | nachos_task1/code/machine/mipssim.cc:121-701 | states that differ only in the bad address and the value of a load that is not pending stay so for ever |
| Instructions.RestartsExactly | nachos_task1/code/machine/machine.cc:101-110 | with no load pending, starting a trapped instruction again goes exactly as if it had not trapped |
| Machines.Machine.Translate | nachos_task1/code/machine/translate.cc:185-251 | the search of table or TLB, the checks in their order, and the use and dirty bits |
| Machines.Machine.ReadMem | nachos_task1/code/machine/translate.cc:86-120 | the value as specified, or the trap |
| Machines.Machine.WriteMem | nachos_task1/code/machine/translate.cc:136-167 | the bytes as specified, or the trap |
| Machines.Machine.DelayedLoad | nachos_task1/code/machine/mipssim.cc:712-718 | the pending load done, the next one pending, register 0 zero |
| Machines.Machine.RaiseException | nachos_task1/code/machine/machine.cc:101-110 | the bad address noted and nothing pending |
| Machines.Machine.ExecuteOther | nachos_task1/code/machine/mipssim.cc:157-687 | each instruction without memory access, case by case and register by register, the multiplier loop for MULT and MULTU included, has the effect whose meaning StepEffects states, or traps with the registers as they were |
| Machines.Machine.ExecuteSum | nachos_task1/code/machine/mipssim.cc:157-183 | sums and differences, with the tests on sign bits |
| Machines.Machine.ExecuteHiLo | nachos_task1/code/machine/mipssim.cc:227-249 | products and quotients, written to HI and LO one after the other |
| Machines.Machine.ExecuteJump | nachos_task1/code/machine/mipssim.cc:193-261 | branches and jumps; those that link write their register first, even when they then read it |
| Machines.Machine.ExecuteLoad | nachos_task1/code/machine/mipssim.cc:263-418 | the loads, with their alignment checks |
| Machines.Machine.ExecuteStore | nachos_task1/code/machine/mipssim.cc:458-668 | the stores |
| Machines.Machine.OneInstruction | nachos_task1/code/machine/mipssim.cc:121-701 | one step as specified; a trap is restartable; register 0 and LoadReg as above |

## Left out

- FileSystems.FileSystem.Create: sizes are not negative; files are created in the one directory whose header is in sector 1.
- FileSystems.FileSystem.WriteFile: asks for one open file object for each file written, as two would hold different copies of a header. A write whose growth comes out short is followed up to the header and the map; the bytes that the code then still writes are not modelled, nor is what an allocation that stops the code has already written to the index sectors of the file.
- OpenFiles.OpenFile.Write: sizes are not negative, and neither is the position unless there is nothing to write; their sum does not overflow an `int`.
- OpenFiles.OpenFile.ReadAt: a negative position with something to read makes the code index outside its buffers, and the model asks for none; the same goes for WriteAt and Read.
- Directories.Directory.ExpandSize: it doubles the table whatever size it is given, so the model asks for the double, as Add does.
- Directories.Directory.FetchFrom: asks for a stored table of the current size or its double; with another size the code reads past its table, or reads too little or too much of the file.
- Directories.Directory.WriteBack: the file has room for the number of entries, as every directory has.
- FileHeaders.FileHeader.WriteBack: a header has 33 words and a sector 32, so the last of the 30 slots is not stored; a file in order never uses it. `numSectors` is never updated by the code and means nothing.
- Paths with `/`, `Make_Dir`, `Change_Dir` and `Open` by mode: files are created in and removed from the one directory whose header is in sector 1, and `Remove` refuses entries that are directories.
- An entry of a directory is taken to be 20 bytes, as the usual compilers lay it out, with the sector number at byte 4 and the name at byte 8; stored integers are little-endian.
- Open-file tables (`filetable.cc`), the console, the network, UNIX files behind the disk, debugging output, self tests other than that of sorted lists, destructors and command lines.
- ReadersWriters.Safety: for one file, with its two semaphores and its count; clients of a file without a name take no semaphore. The seek position that clients share is not modelled: readers do move it concurrently.
- Semaphores.Semaphore.TryPass: one round of the loop in P; the sleeping and switching in between is in module Threads.
- Threads.Partition: speaks of the states between a clean-up and the next switch; during a switch a finished thread is in `toBeDestroyed`, and an idling thread is blocked or, once woken, ready, which the invariant says too.
- Threads.Kernel.Sleep: interrupt handlers are the semaphores they signal; the ready list and the queues of semaphores are sequences here, by the contract of Lists. A thread in the loop of P may also do other steps in the model, which allows more runs than the code has. Stacks, their overflow check, and saving user registers are left out, and interrupt levels are not a variable here: every step is a region with interrupts off.
- Interrupts.Interrupt.OneTick: tells its caller to yield instead of yielding, and does not complete the pending load of the processor before handlers run; handlers are functions of what has fired.
- HashTables.HashTable.Insert: a bucket is the sequence of its items, by the contract of Lists; the chain of each bucket is not repeated, and the number of buckets does not overflow.
- DiskTimes.Disk.StartRequest: the data is not transferred here (see Sectors.SynchDisk); time is a parameter.
- Multipliers.Multiply: negating the most negative operand, undefined in C++, is taken to wrap.
- StepEffects.Divides: the most negative number divided by -1 wraps in the model; the host may trap.
- Instructions.RestartsExactly: with a load pending, a restarted instruction in the delay slot finds the load done, as the code has it.
- StepEffects.ShiftsBits: the distance of SLL, SRL and SRA is the field of the instruction word, 0 to 31.
- Machines.Machine.OneInstruction: stops where the kernel's exception handler begins; addresses are taken as unsigned words; a host with little-endian order and the SIM_FIX build are assumed. Registers and tables are sequences in fields of the machine.
- `LRU.h`, `random.cc`, `alarm.cc`, `timer.cc`, `coff2noff.c` and the C++ examples are not modelled.
