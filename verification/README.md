# Verified models of the martink storage, crypto, parsing and display kernels

This project models seven components of the martink repository in Dafny and proves what they are for. Each
component has a specification (what the data means) and, where the C code changes state, methods with the same
loops, branches and constants that are proved against it.

| part | files | what is modelled |
|---|---|---|
| Coffee flash file system | `CoffeeFlash`, `CoffeeLayout`, `CoffeeGc`, `CoffeeSpace`, `CoffeeLog`, `CoffeeCache`, `CoffeeUpdate`, `CoffeeEvict`, `CoffeeWrite`, `CoffeeRuns`, `Coffee`, `CoffeeHazard`, `CoffeeWitness` | page walk, garbage collector, allocator, file cache, descriptors, micro-logs, merging; the device is a byte sequence with erased bytes zero |
| ECIES on B-163 | `Words`, `Gf2Poly`, `Gf2Field` (also the module `Gf2Curve`), `EciesWords`, `Ecies`, `EciesCipher`, `EciesScheme` | field arithmetic on word arrays, curve arithmetic, XTEA modes, encryption and decryption |
| JSON tokenizer | `Json`, `JsonTree`, `JsonParser`, `JsonRoundTrip` | the default build of the parser, in place on its token array |
| AES core | `AesTables`, `Aes` | encryption and decryption of one block with given round keys |
| SHA-256 | `Fips180`, `FipsConstants`, `Sha256` | the standard on bit strings, where its constants come from, and the streaming code |
| Line drawing | `Line` | the endless line loop of two displays |
| Circular list | `List` | the intrusive doubly linked list |

How to read the model:

- Geometry (page size, pages per sector, sector count, table sizes, log table limit) is a parameter of the Coffee
  model. `COFFEE_READ`, `COFFEE_WRITE` and `COFFEE_ERASE` are ideal operations on the byte sequence. Page numbers
  are 32-bit signed, which makes the stored header 36 bytes long; names are at most 19 characters; from a free page
  the walk goes to the next multiple of the sector size, which is what the mask of the code computes for a power of two
  (`CoffeeLayout.SectorMask`), such as the four pages of `fs/cfs/cfs-coffee-arch.h:66-85`.
- `CoffeeFs.Coffee.readsBack` chooses between `write_log_page` as it stands (it passes a null buffer, so an
  earlier record of the region is not read into the new one) and its evident intent. Every theorem about content
  covers both. The written bytes read back in either case. For the intent the other bytes stay. For the code as it
  stands `CfsWrite` says byte for byte which of them are torn, and that they hold what the stack held; the stack
  contents are arbitrary. `CoffeeWrite.WritesExactly` can be checked before a call and is the exact condition for no
  byte to be lost whatever the stack holds (`CoffeeWrite.ExactlyUnspoiled`, `CoffeeWrite.WroteExactly`);
  `CoffeeWrite.LoggedExactly` is the same for a single record.
- `CoffeeFs.Coffee.strayed` is set when a collection has lowered `next_free` off the page walk. From there on the
  allocator reads arbitrary bytes as headers; the model gives the call up, and no contract says more than that it
  happened and why. Until then `next_free` is on the walk with no free stop before it, and while `gc_wait` is set every
  sector a collection would erase is blank already; both are part of `Valid` (`CoffeeSpace.Placed`). So a failed
  reservation means that no run is to be had, with gc_wait set or not.
- `lp.size` of the log functions has 16 bits. `hung` of `CfsRead` and the fate `Stuck` of `CfsWrite` tell that their
  loops have come to a multiple of 65536 bytes and go round without advancing. The fate `Wide` tells that the write
  would begin a log whose region numbers need more than 16 bits; the model gives such a call up.
- `load_file` evicts a cached object only when no slot is free. `CoffeeCache.Chosen` names the slot it takes, and the
  contracts of opening, reserving, removing, merging and writing say which cached objects they leave alone.
- Content is defined byte by byte: the newest log record of the byte's region, or else the base extent.
- Ghost parameters and results (marked `ghost`) only name states for the contracts.
- A bit vector of the curve code stands for the set of exponents of a polynomial over GF(2). A 32-bit word is its
  sequence of 32 bits; the host is little-endian, as the C code's casts assume.
- Two facts of mathematics are hypotheses where they are needed: that the reduction polynomial is irreducible
  (`Gf2Field.Irreducible`) and that curve addition is associative (`Gf2Curve.Associative`).

Where the code and its documentation or intent disagree, the model follows the code:

- `cfs_seek` bounds the offset by the extent size without the header; `CoffeeCache.SeekEffect` gives the exact
  condition under which that is sound, and `CoffeeCache.SeekDamage` what is lost otherwise.
- `find_next_record` does not leave its outer loop; `CoffeeWrite.NextRecordExact` says exactly when it is right, and
  `CoffeeWitness.BatchesMislead` when it is not. The write path is proved for tables of one batch.
- Reads of 65536 bytes or more of a logged file never end, and logged writes of that length never complete;
  `CfsRead` and `CfsWrite` say exactly when, and `CoffeeWitness.HungRead` is a case.
- Region numbers and index entries have 16 bits. `CoffeeWrite.LogsExactly` says for exactly which files logging works,
  `CoffeeLog.LostRecord` what is lost otherwise, and `CoffeeWitness.WideWrite` is a run that comes to such a file.
- Opening with mode 0 leaves the descriptor free and counts a reference; `CfsOpen` proves that exactly the other modes
  keep the invariant.
- The end of a closed file lives in its cached object. When that is gone `file_end` takes the last nonzero byte of the
  base extent for the end; `CoffeeCache.EndAfterEviction` says exactly when that is right, and
  `CoffeeWitness.ForgetZero` is a run where it is not.
- `cfs_write` returns the full size even if the log gave out half way; `CfsWrite` therefore reports the bytes
  really written in a ghost result.
- The dummy write that marks a new logical end (`fs/cfs/cfs-coffee.c:1225-1228`) is never reached, and neither is
  the read error branch of `merge_log`, because the descriptor it reads was opened for reading.
- `collect_garbage` may lower `next_free` into an extent whose header is retained. `CoffeeGc.NextFreeStaysOnWalk`
  says exactly when, `CoffeeGc.NeverStrays` on which devices never, and `CoffeeHazard` holds a run where a file is
  lost that way.
- A comma with no superior token makes `json_parse` read in front of the token array; `Json.WildComma` says
  exactly when.
- `gf256mul` takes its carry from the wrong operand. `Aes.FieldProductExactly` says when its result is the field
  product nevertheless, and `Aes.MixColumnExactly` which columns are mixed as the standard asks; decryption undoes
  encryption in any case.
- `crypto/sha256.h` says the length passed to `sha256` is in bits; the code takes bytes.

## Model

| member | source | states |
|---|---|---|
| `CoffeeFlash.HeaderRoundTrip` | `fs/cfs/cfs-coffee.c:190-198` | every header whose numbers fit their fields is read back as it was stored |
| `CoffeeFlash.HeaderWritten` | `fs/cfs/cfs-coffee.c:226-242` | read_header after write_header on the same page finds the header; the rest of the device is untouched |
| `CoffeeFlash.HeaderRewriteOnlySets` | `fs/cfs/cfs-coffee.c:226-231` | rewriting a header that only gained flags or first-time settings clears no bit of the device |
| `CoffeeFlash.IsolationSurvivesOr` | `fs/cfs/cfs-coffee.c:350-368` | an isolation mark still reads as isolated and not active if the device keeps arbitrary old 1 bits under it |
| `CoffeeLayout.NextSectorOf` | `fs/cfs/cfs-coffee.c:427-428` | a page of sector s is followed by the first page of sector s + 1 |
| `CoffeeLayout.SectorMask` | `fs/cfs/cfs-coffee.c:427-428` | for every page, if the sector size is a power of two, adding it and masking gives that next sector start |
| `CoffeeLayout.MaskNeedsPower` | `fs/cfs/cfs-coffee.c:427-428` | for another sector size the mask goes astray: three pages a sector, page 3 |
| `CoffeeLayout.PathSplit` | `fs/cfs/cfs-coffee.c:414-433` | any two stops of the page walk are connected by it: the walk is deterministic |
| `CoffeeLayout.ActivesDisjoint` | `fs/cfs/cfs-coffee.c:414-433` | two active extents on the walk share no page |
| `CoffeeLayout.UpdatedStops` | `fs/cfs/cfs-coffee.c:597-598` | rewriting one extent in place loses no stop of the walk |
| `CoffeeLayout.ExtentUpdate` | `fs/cfs/cfs-coffee.c:597-598` | after one extent was rewritten the walk still covers the device and finds exactly the other extents, plus this one if its header is still active |
| `CoffeeLayout.ReserveUpdate` | `fs/cfs/cfs-coffee.c:660-664` | a header written at the start of a free run adds exactly one extent to the walk, with erased space behind the header |
| `CoffeeLayout.ReserveStops` | `fs/cfs/cfs-coffee.c:564-568` | after a reservation next_free is still a stop of the walk, whether it stayed or moved behind the new extent |
| `CoffeeLayout.RunFound` | `fs/cfs/cfs-coffee.c:564-568` | the pages the search returns are a free run on the walk |
| `CoffeeGc.ScanCounts` | `fs/cfs/cfs-coffee.c:299-316` | one header read adds its pages, as far as the sector reaches, to the true count of its kind |
| `CoffeeGc.GcCounts` | `fs/cfs/cfs-coffee.c:250-348` | counts taken on the partly collected device equal the counts of the original layout |
| `CoffeeGc.GcScan` | `fs/cfs/cfs-coffee.c:250-348` | the scan stops at the same pages and carries the same state as it would on the original device |
| `CoffeeGc.ReportIsTrue` | `fs/cfs/cfs-coffee.c:383-391` | the status reported for a sector during a collection is the true number of active and obsolete pages of that sector before the collection |
| `CoffeeGc.GcErase` | `fs/cfs/cfs-coffee.c:393-405` | erasing a sector without active pages, with the tail of a split extent isolated, keeps the collection invariant |
| `CoffeeGc.GcDone` | `fs/cfs/cfs-coffee.c:370-412` | after the last sector the walk covers the device and finds exactly the active extents it found before, each unchanged |
| `CoffeeGc.IsolationFits` | `fs/cfs/cfs-coffee.c:400-402` | isolation never runs past the end of the device |
| `CoffeeGc.NextFreeStaysOnWalk` | `fs/cfs/cfs-coffee.c:395-398` | a collection leaves next_free on the walk if and only if the page it is lowered to was already a stop of the walk |
| `CoffeeGc.NeverStrays` | `fs/cfs/cfs-coffee.c:395-398` | on a device with a single sector, or with one page a sector, that is always so |
| `CoffeeSpace.SettledAfter` | `fs/cfs/cfs-coffee.c:370-412` | after a collection every sector that another one would erase is blank already |
| `CoffeeSpace.SettledKept` | `fs/cfs/cfs-coffee.c:635-675` | that stays so as long as only pages of active extents change and no extent becomes obsolete |
| `CoffeeSpace.ManagedUpdated` | `fs/cfs/cfs-coffee.c:597-600` | rewriting an extent in place keeps what next_free and gc_wait mean: next_free is a stop and no earlier stop is free, and while gc_wait is set no sector is left to collect; a removal must clear gc_wait |
| `CoffeeSpace.ManagedReserve` | `fs/cfs/cfs-coffee.c:564-568` | a reservation keeps what both mean |
| `CoffeeSpace.ManagedCollected` | `fs/cfs/cfs-coffee.c:645-658` | so does a collection that stays on the walk, which may set gc_wait |
| `CoffeeSpace.NothingGained` | `fs/cfs/cfs-coffee.c:647-658` | collecting a device with no sector left to collect makes no room |
| `CoffeeSpace.NoneToBeHad` | `fs/cfs/cfs-coffee.c:647-658` | while gc_wait is set, a search in vain from next_free on means that there is no run anywhere, nor would be after a collection |
| `CoffeeHazard.CollectorHazard` | `fs/cfs/cfs-coffee.c:395-404` | a concrete device on which every collection leaves next_free off the walk, on two pages that read as free; a file allocated there is not found by the walk, and the next collection erases it |
| `CoffeeHazard.ReachHazard` | `fs/cfs/cfs-coffee.c:1296-1300` | that device is reached from a format by two reservations and a removal |
| `CoffeeHazard.LeaveWalk` | `fs/cfs/cfs-coffee.c:653-654` | and one more reservation there collects and leaves the walk |
| `CoffeeLog.NewestUnique` | `fs/cfs/cfs-coffee.c:734-742` | the newest record of a region is the only one with no later record of the same region |
| `CoffeeLog.SearchIsNewest` | `fs/cfs/cfs-coffee.c:707-746` | searching only the filled part of the index table finds the newest record of the whole table |
| `CoffeeLog.ChunkView` | `fs/cfs/cfs-coffee.c:750-776` | all bytes of one chunk come from the same place: its newest record, or the base extent |
| `CoffeeLog.DiskReserved` | `fs/cfs/cfs-coffee.c:635-675` | reserving an extent keeps every file and its content |
| `CoffeeLog.HeaderStops` | `fs/cfs/cfs-coffee.c:226-231` | rewriting a header without changing its page count loses no stop of the walk and keeps next_free and gc_wait right |
| `CoffeeLog.DataStops` | `fs/cfs/cfs-coffee.c:977-982` | so do writes of data or records within an extent |
| `CoffeeLog.DiskConfigured` | `fs/cfs/cfs-coffee.c:1325-1327` | first-time log settings keep every file and its content |
| `CoffeeLog.DiskLogged` | `fs/cfs/cfs-coffee.c:797-802` | attaching a fresh log keeps all content and gives the log one owner |
| `CoffeeLog.DiskDropped` | `fs/cfs/cfs-coffee.c:597-598` | dropping extents no remaining file depends on keeps the remaining files |
| `CoffeeLog.DiskDataWritten` | `fs/cfs/cfs-coffee.c:1237-1238` | a write into the base extent of an unlogged file changes exactly those bytes of its content, and no other file |
| `CoffeeLog.ViewAfterAppend` | `fs/cfs/cfs-coffee.c:971-983` | a new record replaces exactly the bytes of its region in the content of its file |
| `CoffeeLog.DiskAppended` | `fs/cfs/cfs-coffee.c:971-983` | a new record keeps every other file and the well-formed tables |
| `CoffeeLog.AppendWrites` | `fs/cfs/cfs-coffee.c:977-982` | the two device writes of a record land on erased bytes and produce the appended table |
| `CoffeeCache.LogView` | `fs/cfs/cfs-coffee.c:1132-1149` | for a file in use, reading a chunk through its log, or else its base, yields the content |
| `CoffeeCache.CachedIsFound` | `fs/cfs/cfs-coffee.c:485-495` | searching the cache for the name of a file in use leads to the slot in use |
| `CoffeeCache.ScannedIsUncached` | `fs/cfs/cfs-coffee.c:497-503` | a file found by scanning after the cache was searched in vain is in no other slot |
| `CoffeeCache.CacheOpened` | `fs/cfs/cfs-coffee.c:1032-1036` | opening keeps every reference count equal to the number of open descriptors |
| `CoffeeCache.CacheClosed` | `fs/cfs/cfs-coffee.c:1039-1047` | closing keeps every reference count equal to the number of open descriptors |
| `CoffeeCache.SeekEffect` | `fs/cfs/cfs-coffee.c:1070-1078` | an accepted seek keeps the file system sound if and only if it lands within the usable capacity |
| `CoffeeCache.SeekDamage` | `fs/cfs/cfs-coffee.c:1070-1072` | behind the capacity lies the header of the next extent: its bytes then count as content, and a write there destroys it |
| `CoffeeCache.EndAfterEviction` | `fs/cfs/cfs-coffee.c:1026-1029` | the end of a file whose object left the cache: an unlogged file keeps its end if and only if it was 0 or the last byte is nonzero, a logged one if and only if its base happens to end there; an unlogged end never grows |
| `CoffeeCache.RemovedStops` | `fs/cfs/cfs-coffee.c:578-598` | a removal loses no stop of the walk; with gc_wait cleared, next_free and gc_wait stay right |
| `CoffeeCache.RemovalShrinks` | `fs/cfs/cfs-coffee.c:578-626` | removal takes exactly the extent and its log out of the active set |
| `CoffeeCache.RemovalKeepsInv` | `fs/cfs/cfs-coffee.c:602-617` | closing the descriptors and dropping the cached objects of a removed file keeps the whole invariant |
| `CoffeeCache.RefCountUpdate` | `fs/cfs/cfs-coffee.c:1039-1047` | how one descriptor change moves the descriptor count of a slot |
| `CoffeeCache.OpenCompletes` | `fs/cfs/cfs-coffee.c:1032-1036` | opening keeps the invariant, the reference counts in it, if and only if some mode was given |
| `CoffeeUpdate.MovedTrans` | `fs/cfs/cfs-coffee.c:806-874` | changes that touch one file only compose |
| `CoffeeUpdate.MovedKeepsOthers` | `fs/cfs/cfs-coffee.c:1155-1248` | writing, growing or merging one file leaves the content and the descriptors of every other file in use as they were |
| `CoffeeUpdate.CopyStep` | `fs/cfs/cfs-coffee.c:842-845` | a chunk read from the old file may be programmed at the same offset of the new extent, which then holds that much of the old content |
| `CoffeeUpdate.RePointCounts` | `fs/cfs/cfs-coffee.c:848-854` | moving the descriptors moves the whole descriptor count of the old slot to the new one |
| `CoffeeUpdate.MergeContent` | `fs/cfs/cfs-coffee.c:834-846` | the new extent carries the old base-plus-log content to the logical end |
| `CoffeeUpdate.MergeConfig` | `fs/cfs/cfs-coffee.c:862-866` | the old log settings may be stored in the new header without clearing a bit |
| `CoffeeUpdate.MergeResult` | `fs/cfs/cfs-coffee.c:806-874` | copying, re-pointing, dropping and storing the settings add up to the merge relation |
| `CoffeeWrite.NextRecordExact` | `fs/cfs/cfs-coffee.c:893-911` | the batched search finds the first free record if and only if the table is one batch or the first free record lies in the last batch |
| `CoffeeWitness.BatchesMislead` | `fs/cfs/cfs-coffee.c:893-911` | two concrete tables of three records in batches of two: an empty one looks as if two records were used, a full one as if one were |
| `CoffeeWitness.ThreeRecords` | `fs/cfs/cfs-coffee.c:1302-1330` | a run of the interface that sets up such a table |
| `CoffeeWrite.NextRecord` | `fs/cfs/cfs-coffee.c:878-912` | for a table of one batch the search returns the first free record, or the table size when it is full |
| `CoffeeWrite.LoggedExactly` | `fs/cfs/cfs-coffee.c:954-969` | for the code as it stands, with its null read buffer: one record changes only its chunk, whatever the stack held, if and only if the region had no record, or the chunk starts the region and reaches the end of the record or of the file |
| `CoffeeWitness.RecordSpoils` | `fs/cfs/cfs-coffee.c:954-969` | a run of the interface to a sound state in which a write of one byte at offset 1 may lose a byte beside it |
| `CoffeeWrite.LoggedView` | `fs/cfs/cfs-coffee.c:954-983` | after a record was logged every byte of the file reads as the logged chunk says |
| `CoffeeWrite.CacheLogged` | `fs/cfs/cfs-coffee.c:797-802` | flagging the file and storing the log page keeps the cache sound |
| `CoffeeWrite.ChunkStep` | `fs/cfs/cfs-coffee.c:1197-1223` | each record of a write tears the bytes beside the write in its region, which then hold what the stack held, if and only if that region had a record before the write and the old log, not yet merged, takes the new one; it tears no other byte |
| `CoffeeWrite.ExactlyUnspoiled` | `fs/cfs/cfs-coffee.c:954-969` | a whole write, growing or not, leaves every byte beside it whatever the stack holds if and only if records are read back, or the first record and the last each go to a merged or new log, or are the first of their regions, or have no other byte of them below the end |
| `CoffeeWrite.LoggingChunk` | `fs/cfs/cfs-coffee.c:1211-1222` | a record takes the write as many bytes further as it holds, and keeps account of the torn bytes, the room in the log and the regions behind it |
| `CoffeeWrite.LoggingMerged` | `fs/cfs/cfs-coffee.c:1208-1210` | a merge in the middle of a write happens only when the old log is full and loses none of the bytes written so far |
| `CoffeeWrite.WroteContent` | `fs/cfs/cfs-coffee.c:1155-1248` | the content after a write is the old content with the written bytes laid over it, extended when they reach past the end, if and only if every torn byte below the end happens to hold its old value |
| `CoffeeWrite.WroteExactly` | `fs/cfs/cfs-coffee.c:1155-1248` | so it is after every write that meets the guard of ExactlyUnspoiled, an unlogged append and a write that makes the file grow among them, and after any other if and only if the stack held the old bytes |
| `CoffeeWrite.GrownIsLeast` | `fs/cfs/cfs-coffee.c:1178-1185` | the doubling ends with room, and not before the first size that has it |
| `CoffeeWrite.RoomLeft` | `fs/cfs/cfs-coffee.c:939-947` | as long as the old log had room for all records of a write, no round of it meets a full log |
| `CoffeeEvict.SparesRelocated` | `fs/cfs/cfs-coffee.c:806-874` | with a free slot, and another one free or holding the log, a merge leaves every cached object of another file and again two such slots |
| `CoffeeEvict.SparesCreated` | `fs/cfs/cfs-coffee.c:780-804` | so does creating a log |
| `CoffeeEvict.TwoFree` | `fs/cfs/cfs-coffee.c:435-476` | two free slots are such room |
| `CoffeeEvict.SparesTrans` | `fs/cfs/cfs-coffee.c:1155-1248` | and so does any sequence of them: a whole write |
| `CoffeeWrite.SettingsWritten` | `fs/cfs/cfs-coffee.c:1302-1330` | stored log settings keep the file system sound if and only if the table they stand for is one batch |
| `CoffeeLog.RegionsExact` | `fs/cfs/cfs-coffee.c:690-705` | the 16-bit entry of one byte is recognised for exactly the bytes of its region, over so many bytes, if and only if no region number reaches 2^16 - 1 |
| `CoffeeLog.FoundIsContent` | `fs/cfs/cfs-coffee.c:750-777` | what the code finds with 16-bit region numbers is the content of every file of a sound device |
| `CoffeeLog.FoundAfterAppend` | `fs/cfs/cfs-coffee.c:971-983` | for a file of any length, a new record replaces what the code finds of exactly the bytes whose region its 16-bit entry is recognised as |
| `CoffeeLog.LostRecord` | `fs/cfs/cfs-coffee.c:973-979` | a record of region 2^16 - 1 changes no byte, and its place in the table still looks free |
| `CoffeeWrite.LogsExactly` | `fs/cfs/cfs-coffee.c:917-987` | for every logged file with room in its log: a record does to the content what it should, wherever it lies and whatever it holds, if and only if the region numbers of the file stay below 2^16 - 1 |
| `CoffeeWitness.WrappedRegions` | `fs/cfs/cfs-coffee.c:690-705` | with records of one byte, byte 65535 has entry 0, and byte 65536 is taken for byte 0 |
| `CoffeeWitness.WideWrite` | `fs/cfs/cfs-coffee.c:1302-1330` | a run of the interface that sets up such records and comes to write into such a file |
| `CoffeeWrite.SettingsOnlySet` | `fs/cfs/cfs-coffee.c:1325-1327` | first-time settings clear no bit |
| `CoffeeWrite.ReconfigureClears` | `fs/cfs/cfs-coffee.c:1325-1327` | settings stored a second time may have to: record size 1 over record size 2 |
| `CoffeeWrite.WroteAppended` | `fs/cfs/cfs-coffee.c:1229-1245` | the unlogged branch writes past the logical end into erased bytes and extends the end |
| `CoffeeWrite.FormattedInv` | `fs/cfs/cfs-coffee.c:1347-1366` | an erased device with empty tables satisfies the invariant |
| `CoffeeFs.Coffee.Program` | `fs/cfs/cfs-coffee.c:226-231` | every device write but the isolation marks and the log settings goes through here, and may only turn 0 bits into 1 bits |
| `CoffeeFs.Coffee.GetSectorStatus` | `fs/cfs/cfs-coffee.c:250-348` | reports the counts and the carried state the classification of the pages demands, across calls for ascending sectors |
| `CoffeeFs.Coffee.IsolatePages` | `fs/cfs/cfs-coffee.c:350-368` | exactly the given pages become isolated; nothing else changes |
| `CoffeeFs.Coffee.CollectGarbage` | `fs/cfs/cfs-coffee.c:370-412` | greedy collection: every active extent is still found by the walk, unchanged; exactly the sectors with obsolete and no active pages are erased; next_free becomes the first of them if that is lower |
| `CoffeeFs.Coffee.FindContiguousPages` | `fs/cfs/cfs-coffee.c:542-576` | first fit: returns the lowest fully erased run on the walk from next_free on, and none if and only if there is none |
| `CoffeeFs.Coffee.FindSpace` | `fs/cfs/cfs-coffee.c:645-658` | a search, and if it is in vain and gc_wait is not set, a collection and another search; gc_wait is set exactly after that one failed too; it leaves the walk if and only if the first search fails and the page next_free is lowered to was no stop; otherwise a failure means there is no run, on the device or on what a collection would leave of it, whatever gc_wait was; the run found is the first fit, from next_free or from where the collection has lowered it to |
| `CoffeeFs.Coffee.LoadFile` | `fs/cfs/cfs-coffee.c:435-476` | takes the first free slot, and only if there is none the last one without open descriptors; it fails only if every slot is referenced |
| `CoffeeFs.Coffee.FindFile` | `fs/cfs/cfs-coffee.c:478-506` | finds a cached or stored file of the name, loading a stored one as LoadFile does; a null result means there is none, or that every slot is referenced |
| `CoffeeFs.Coffee.FileEnd` | `fs/cfs/cfs-coffee.c:508-540` | one past the last nonzero data byte; everything behind is erased |
| `CoffeeFs.Coffee.Reserve` | `fs/cfs/cfs-coffee.c:635-675` | adds one erased extent with the given header at the first fit, of the device or of what a collection leaves of it; everything on the device stays, and so does every cached object but that of the slot load_file takes; next_free and gc_wait stay right, and gc_wait is set only by a failure; failure means a taken name, no slot, or that no run is to be had, by a collection or without |
| `CoffeeFs.Coffee.GetRecordIndex` | `fs/cfs/cfs-coffee.c:707-746` | the batched backward search returns the newest record of the region, for any batch limit |
| `CoffeeFs.Coffee.ReadLogPage` | `fs/cfs/cfs-coffee.c:750-777` | delivers the chunk of the newest record, cut at the region border, or reports that the region has none |
| `CoffeeFs.Coffee.ReadChunk` | `fs/cfs/cfs-coffee.c:1136-1149` | one round of the read loop delivers content bytes, none if and only if the 16 bits lp.size keeps of the bytes left are zero |
| `CoffeeFs.Coffee.CfsRead` | `fs/cfs/cfs-coffee.c:1100-1153` | delivers exactly the content at the offset, as far as the file reaches, and advances by it; the loop fails to end if and only if the file is logged and 65536 bytes or more are to be read, and then delivers their number modulo 65536 first |
| `CoffeeWitness.HungRead` | `fs/cfs/cfs-coffee.c:1136-1149` | a run of the interface that reads 65536 bytes of a logged file, which never ends |
| `CoffeeFs.Coffee.CfsOpen` | `fs/cfs/cfs-coffee.c:1003-1037` | an existing file is opened with its content, its end coming from the cached object if there is one and from file_end otherwise; without it, unless it was only to be read, a fresh empty file of the default size is made at the first fit; while a slot is free every other cached object stays as it was; the file system stays sound if and only if some mode was given; failure means no descriptor, no slot, a missing file only to be read, or that no run is to be had, by a collection or without |
| `CoffeeFs.Coffee.CloseAndReopen` | `fs/cfs/cfs-coffee.c:1003-1047` | closing a file and opening it again by its name leads to the same file with the same end |
| `CoffeeFs.Coffee.ReopenAfterOthers` | `fs/cfs/cfs-coffee.c:435-476` | a closed file keeps its slot and its end across any number of other files being opened and closed, until the table is full |
| `CoffeeWitness.ForgetZero` | `fs/cfs/cfs-coffee.c:1026-1029` | a run that writes a zero byte, closes the file, opens another one, and finds the first one empty |
| `CoffeeFs.Coffee.CfsClose` | `fs/cfs/cfs-coffee.c:1039-1047` | frees the descriptor and one reference |
| `CoffeeFs.Coffee.CfsSeek` | `fs/cfs/cfs-coffee.c:1049-1079` | exactly the offsets from 0 to the extent size are accepted; the file system stays sound if and only if the target is within the usable capacity |
| `CoffeeWitness.SeekIntoNeighbour` | `fs/cfs/cfs-coffee.c:1070-1078` | a run after which the flag byte of another header counts as content of a file |
| `CoffeeFs.Coffee.RemoveByPage` | `fs/cfs/cfs-coffee.c:578-626` | marks the extent, and its log if asked to, obsolete, and drops their objects and descriptors |
| `CoffeeFs.Coffee.CfsRemove` | `fs/cfs/cfs-coffee.c:1081-1098` | the file and its log are gone, its descriptors closed, gc_wait cleared; every other file is kept, and every other cached object but one that load_file takes when no slot is free |
| `CoffeeFs.Coffee.CreateLog` | `fs/cfs/cfs-coffee.c:780-804` | the file gets an empty log, as large as its table, and the same content; its object takes the slot load_file takes and no other object changes; failure leaves the tables as they were and means no slot, or that no run is to be had for the log |
| `CoffeeFs.Coffee.CopyFile` | `fs/cfs/cfs-coffee.c:834-846` | the new extent holds the old content up to the logical end |
| `CoffeeFs.Coffee.RePointDescriptors` | `fs/cfs/cfs-coffee.c:848-854` | exactly the open descriptors of the old file are pointed to the new slot, and counted there |
| `CoffeeFs.Coffee.MergeLog` | `fs/cfs/cfs-coffee.c:806-874` | the file lives on in a new extent of the old size, or twice that, with the same content, end, record size and descriptors; the old extent and its log are gone, their objects dropped, and no other object changes but that of the slot load_file takes; failure leaves file and tables as they were and means no descriptor, no slot, or that no run is to be had for the new extent |
| `CoffeeFs.Coffee.FindNextRecord` | `fs/cfs/cfs-coffee.c:878-912` | the cached count, or what the batched search of the table yields |
| `CoffeeFs.Coffee.FetchRegion` | `fs/cfs/cfs-coffee.c:954-966` | the record buffer before the chunk is copied into it: the old bytes of the region, or stack contents where the code as it stands does not read them |
| `CoffeeFs.Coffee.BuildRecord` | `fs/cfs/cfs-coffee.c:954-969` | the record buffer holds what its region is to read as |
| `CoffeeFs.Coffee.LogRecord` | `fs/cfs/cfs-coffee.c:971-983` | programs index entry and record; only the log of this file changes |
| `CoffeeFs.Coffee.WriteLogPage` | `fs/cfs/cfs-coffee.c:917-987` | logs one chunk up to the region border; merges exactly when the log is full; a logged file fails only with a full log that cannot be merged, a file without log only for want of a log, and failure disturbs nothing; a record in an existing log changes nothing but the file |
| `CoffeeFs.Coffee.GrowFile` | `fs/cfs/cfs-coffee.c:1178-1185` | the extent becomes the first doubling with room for the write, and everything stays as it is if it has room already; failure means the next doubling could not be merged: no descriptor, no slot, or no run to be had |
| `CoffeeFs.Coffee.LogRound` | `fs/cfs/cfs-coffee.c:1197-1223` | one round: a record, or a merge because the log is full; with room left it is a record; what fails is explained by the merge or the log it needed |
| `CoffeeFs.Coffee.WriteThroughLog` | `fs/cfs/cfs-coffee.c:1197-1223` | the bytes written so far are laid over the old content, whatever mix of records and merges it took, and of the others exactly those of Torn hold stack contents; a length of 65536 or more gets stuck after its remainder modulo 65536 |
| `CoffeeFs.Coffee.AppendInPlace` | `fs/cfs/cfs-coffee.c:1229-1245` | the unlogged branch programs the bytes behind the end, onto erased bytes, and leaves the file unlogged |
| `CoffeeFs.Coffee.CfsWrite` | `fs/cfs/cfs-coffee.c:1155-1248` | the first n bytes read back at the offset, the end follows, no other file changes, and every other byte is the old one, or what the stack held where Torn says so; a write completes only below 65536 bytes or past the log, and otherwise stops only at a merge, a growth or a log that could not be had, or where it would begin a log with regions beyond 16 bits; a logged write with room in the log always completes and leaves everything else as it was; an append that fits its unlogged extent always does, by one device write; the extent ends as the first doubling with room; with two free slots no cached object of another file is lost |
| `CoffeeFs.Coffee.CfsCoffeeReserve` | `fs/cfs/cfs-coffee.c:1296-1300` | a new named extent in a slot, at the first fit, of the device or of what a collection leaves of it; failure means a taken name, no slot, or that no run is to be had, by a collection or without |
| `CoffeeFs.Coffee.CfsCoffeeConfigureLog` | `fs/cfs/cfs-coffee.c:1302-1330` | stores the settings of an unlogged file, the record count modulo 65536, and nothing else, clearing no bit if the file had none; the file system stays sound if and only if the table is one batch; rejections are explained |
| `CoffeeFs.Coffee.CfsCoffeeFormat` | `fs/cfs/cfs-coffee.c:1346-1366` | an empty, sound file system |
| `CoffeeFs.Coffee.constructor` | `fs/cfs/cfs-coffee.c:214-223` | a freshly formatted device |
| `CoffeeFs.Coffee.WriteSeekRead` | `fs/cfs/cfs-coffee.c:1100-1248` | writing, seeking back and reading returns the bytes written, for every write that ends |
| `CoffeeFs.Coffee.WriteReopenRead` | `fs/cfs/cfs-coffee.c:1003-1248` | so does writing, closing, opening by name, seeking and reading |
| `CoffeeFs.Coffee.Perform` | `fs/cfs/cfs-coffee.c:1003-1366` | each interface call keeps the whole invariant, next_free on the walk included, and leaves every open descriptor it does not touch on its file, with the same offset, end and content; the exceptions are a collection that leaves the walk, which needs several sectors of several pages, and the calls Derails lists |
| `CoffeeFs.Coffee.Run` | `fs/cfs/cfs-coffee.c:1003-1366` | over any run of calls, up to such an exception, the walk covers the device and next_free stays on it, all logs and tables stay sound, and every reference count is the number of open descriptors on that slot; a descriptor no call touches still sees its file as it was, whatever was written, merged, grown, removed or collected beside it |
| `CoffeeRuns.StandsKept` | `fs/cfs/cfs-coffee.c:414-433` | a descriptor sees the same content if its object and the extents of its file were left alone |
| `CoffeeRuns.QuietPreserves` | `fs/cfs/cfs-coffee.c:635-675` | reservations, failed calls and collections disturb no descriptor |
| `CoffeeRuns.OpenPreserves` | `fs/cfs/cfs-coffee.c:1003-1037` | opening any file, also the same one again, disturbs no descriptor |
| `CoffeeRuns.TablePreserves` | `fs/cfs/cfs-coffee.c:1039-1153` | closing, reading and seeking disturb no descriptor but their own, and a seek none of another file |
| `CoffeeRuns.WritePreserves` | `fs/cfs/cfs-coffee.c:1155-1248` | writing, growing and merging disturb no descriptor of another file |
| `CoffeeRuns.RemovePreserves` | `fs/cfs/cfs-coffee.c:1081-1098` | removing a file disturbs no descriptor of a file with another name |
| `CoffeeRuns.ConfigurePreserves` | `fs/cfs/cfs-coffee.c:1302-1330` | first-time log settings change the content of no file |
| `CoffeeRuns.LeftAloneStands` | `fs/cfs/cfs-coffee.c:1003-1366` | the same over any number of calls |
| `Gf2Poly.MulComm` | `crypto/ecies.c:211-230` | carry-less multiplication commutes |
| `Gf2Poly.MulAssoc` | `crypto/ecies.c:211-230` | carry-less multiplication is associative |
| `Gf2Poly.MulSize` | `crypto/ecies.c:211-230` | degrees add up under multiplication |
| `Gf2Poly.CongUnique` | `crypto/ecies.c:211-230` | congruent polynomials below the degree of the modulus are equal, so reduced results are determined |
| `Gf2Poly.CoprimeStep` | `crypto/ecies.c:240-249` | adding a shifted multiple keeps two polynomials coprime |
| `Gf2Field.FMulAssoc` | `crypto/ecies.c:211-230` | the reduced product is associative |
| `Gf2Field.FMulAdd` | `crypto/ecies.c:211-230` | the reduced product distributes over addition |
| `Gf2Field.SqAdd` | `crypto/ecies.c:211-230` | squaring is additive |
| `Gf2Field.CoprimeHasInverse` | `crypto/ecies.c:232-250` | an element coprime to the modulus has a reduced inverse |
| `Gf2Field.DoubleReduced` | `crypto/ecies.c:221-226` | one doubling needs at most one subtraction of the modulus to be reduced again |
| `Gf2Field.EuclidStart` | `crypto/ecies.c:236-239` | the assignments before the loop establish u = x z and v = x g modulo the polynomial |
| `Gf2Field.EuclidSwap` | `crypto/ecies.c:242-244` | the swap keeps the invariant |
| `Gf2Field.EuclidStep` | `crypto/ecies.c:245-248` | one round keeps u = x z and v = x g and the size bounds, shrinks u, and no shift leaves the 165 bits the invariant allows |
| `Gf2Field.EuclidDone` | `crypto/ecies.c:240-250` | when u is 1 the cofactor is the inverse |
| `Gf2Curve.DoubleOnCurve` | `crypto/ecies.c:283-299` | doubling a point of the curve, including x = 0, gives a point of the curve |
| `Gf2Curve.ChordOnCurve` | `crypto/ecies.c:315-328` | the chord construction on two points with different x gives a point of the curve |
| `Gf2Curve.PlusOnCurve` | `crypto/ecies.c:302-332` | addition through every branch gives a point of the curve |
| `Gf2Curve.SlopeExists` | `crypto/ecies.c:287-319` | the line through two points with different x, and the tangent at a point with x other than 0, have a slope |
| `Gf2Curve.PlusIsThird` | `crypto/ecies.c:302-332` | what the sum is: the line through both points, the tangent if they are one, meets the curve in the mirror image (x, y + x) of the sum and in no other third point, for chord and tangent alike |
| `Gf2Curve.ChordRelation` | `crypto/ecies.c:315-328` | the same for two points with different x without a slope: (y1 + y2)(x1 + x3) = (x1 + x2)(y1 + y3 + x3) |
| `Gf2Curve.NegCancels` | `crypto/ecies.c:307-311` | a point and its mirror image (x, y + x) add up to the zero point |
| `Gf2Curve.TimesTimes` | `crypto/ecies.c:341-352` | j times (k times P) is jk times P, given the associative law |
| `Gf2Curve.MultiplesCommute` | `crypto/ecies.c:512-540` | both ends of the key agreement reach the same point |
| `Gf2Curve.DoubleAndAdd` | `crypto/ecies.c:346-350` | one round of double-and-add accounts for one more binary digit of the exponent |
| `EciesWords.PolyInjective` | `crypto/ecies.c:51-63` | different bit vectors stand for different polynomials |
| `EciesWords.XorIsAdd` | `crypto/ecies.c:201-206` | word-wise exclusive or is polynomial addition |
| `EciesWords.ShiftedIsShift` | `crypto/ecies.c:89-93` | the carries between words make the word loop a polynomial shift, cut at the vector length |
| `EciesWords.CutTwice` | `crypto/ecies.c:84-94` | shifting by words and then by bits is shifting once |
| `Ecies.BitstrIsClear` | `crypto/ecies.c:65-70` | answers whether the vector is the zero polynomial |
| `Ecies.BitstrSizeInBits` | `crypto/ecies.c:72-81` | the degree plus one, 0 for zero |
| `Ecies.BitstrLshift` | `crypto/ecies.c:83-94` | the shifted polynomial without the terms that leave the vector |
| `Ecies.FieldIs1` | `crypto/ecies.c:193-199` | answers whether the vector is the polynomial 1 |
| `Ecies.FieldAdd` | `crypto/ecies.c:201-206` | polynomial addition, also when the output is one of the operands |
| `Ecies.FieldMult` | `crypto/ecies.c:210-230` | the reduced product for all reduced inputs, also when the output is the first operand |
| `Ecies.FieldInvert` | `crypto/ecies.c:232-250` | terminates for every reduced x coprime to the modulus and returns its reduced inverse |
| `Ecies.EuclidFits` | `crypto/ecies.c:245-248` | the shifts of the inversion lose no bit of the vector |
| `Ecies.Curve.IsPointOnCurve` | `crypto/ecies.c:267-281` | answers exactly whether a reduced pair is a point of the curve, (0, 0) included |
| `Ecies.Curve.PointDouble` | `crypto/ecies.c:283-299` | the double of the point |
| `Ecies.Curve.PointAdd` | `crypto/ecies.c:301-332` | the sum of the two points, through every branch, which PlusIsThird says what it is |
| `Ecies.Curve.PointMult` | `crypto/ecies.c:340-352` | the multiple of the point by the number the exponent stands for |
| `EciesCipher.ExportImport` | `crypto/ecies.c:96-110` | importing an exported vector gives it back |
| `EciesCipher.EncipherBlock` | `crypto/ecies.c:383-395` | enciphers eight bytes in place |
| `EciesCipher.EncipherInjective` | `crypto/ecies.c:383-395` | under one key different blocks are enciphered differently |
| `EciesCipher.StreamNeverRepeats` | `crypto/ecies.c:396-411` | no block of the key stream repeats while the counter does not |
| `EciesCipher.CtrAt` | `crypto/ecies.c:396-411` | byte j of the result is byte j of the text plus byte j of the key stream |
| `EciesCipher.CtrTwice` | `crypto/ecies.c:396-411` | counter mode undoes itself, for every length |
| `EciesCipher.CtrCrypt` | `crypto/ecies.c:396-411` | counter mode in place on a part of a buffer; the rest stays |
| `EciesCipher.XteaCbcMac` | `crypto/ecies.c:413-429` | the chained MAC over the length and all data, a short last block included |
| `EciesCipher.MacTellsBlock` | `crypto/ecies.c:413-429` | data of one length that differ in one block, a short last block included, have different MACs under every key |
| `EciesCipher.MacTellsLength` | `crypto/ecies.c:418-419` | data that only the number of zeros at the end tells apart have different MACs, thanks to the length in the first block |
| `EciesCipher.XteaDaviesMeyer` | `crypto/ecies.c:431-446` | the hash chained over blocks of 16 bytes |
| `EciesCipher.Kdf` | `crypto/ecies.c:484-497` | both derived keys from the three coordinates |
| `EciesCipher.KdfBufferTells` | `crypto/ecies.c:487-496` | every coordinate and the counter go into what is hashed: equal inputs mean equal coordinates and the same counter |
| `EciesScheme.PolyOfWords` | `crypto/ecies.c:96-110` | a reduced polynomial survives being stored in words |
| `EciesScheme.MessageOpens` | `crypto/ecies.c:502-551` | for every text, whoever holds d with public point d G accepts the message and reads the text |
| `EciesScheme.EmbeddedPublicKeyValidation` | `crypto/ecies.c:465-470` | accepts exactly the reduced nonzero points of the curve |
| `EciesScheme.Encryption` | `crypto/ecies.c:500-524` | writes the message for the text unless the shared point is zero, the case that draws a new exponent |
| `EciesScheme.Decryption` | `crypto/ecies.c:526-551` | returns 1 and the decrypted text exactly for messages with a valid point, nonzero shared point and matching MAC; otherwise -1 with the text untouched |
| `EciesScheme.TamperedRefused` | `crypto/ecies.c:539-546` | an accepted message is refused after any change within one block of its ciphertext, the short last one included |
| `EciesScheme.RoundTrip` | `crypto/ecies.c:500-551` | encryption succeeds if and only if the shared point is not the zero point, and then decryption returns 1 and the original text |
| `Json.StepAdvances` | `util/json.c:160-290` | every round moves forward, so the loop ends |
| `Json.StepOk` | `util/json.c:160-290` | toksuper always names an allocated token or none |
| `Json.ClosedByPartner` | `util/json.c:184-229` | a closing bracket is taken if and only if the innermost open token was opened by its partner, and closes exactly that one; otherwise it is refused as invalid, also when nothing is open |
| `Json.RunSound` | `util/json.c:153-300` | over any run, whatever its outcome, every token stands for its text: containers between brackets of their kind, strings between quotes, primitives free of delimiters; later tokens lie within an earlier container or behind it |
| `Json.ParsedIsSound` | `util/json.c:293-298` | after a run that succeeds every container is closed, by its partner, and contains or precedes all later tokens |
| `Json.DryStep` | `util/json.c:160-290` | with and without a token array the same text is read and the same tokens are counted |
| `Json.DryRunPredicts` | `util/json.c:153-300` | if a dry run returns n, a run with at least n slots is never short of memory, and returns n if it succeeds |
| `Json.FullRunIsDryRun` | `util/json.c:153-300` | a successful run returns what the dry run returns |
| `Json.ResumeIsOneRun` | `util/json.c:153-300` | a run stopped for want of slots and resumed with more ends in the same tokens and parser state as one long run; only the count starts over |
| `Json.WildComma` | `util/json.c:242-258` | a round reads in front of the token array if and only if it meets a comma while no token is superior |
| `Json.LeadingComma` | `util/json.c:242-258` | the text of a single comma does so |
| `JsonTree.RunValue` | `util/json.c:160-290` | parsing a printed value in place appends its tokens and counts it in the superior token |
| `JsonTree.RunItems` | `util/json.c:184-258` | parsing the items of an array |
| `JsonTree.RunMembers` | `util/json.c:184-258` | parsing the members of an object, keys taking one value each |
| `JsonTree.ParsePrinted` | `util/json.c:153-300` | for every tree, printed with any white space and given enough slots, the result is the number of its tokens, and the tokens are its preorder with exact type, start, end and size |
| `JsonParser.Parser.constructor` | `util/json.c:306-310` | the start state |
| `JsonParser.Parser.AllocToken` | `util/json.c:9-21` | the next slot, reset, or none when the array is full |
| `JsonParser.Parser.ParsePrimitive` | `util/json.c:37-81` | takes the longest run up to a delimiter; every error leaves the parser as it was |
| `JsonParser.Parser.ParseString` | `util/json.c:86-148` | takes the string up to its closing quote with its escapes checked; every error leaves the parser as it was |
| `JsonParser.Parser.OpenContainer` | `util/json.c:166-183` | allocates the open token and makes it superior |
| `JsonParser.Parser.CloseContainer` | `util/json.c:184-229` | closes the innermost open token if it is of the right kind and makes the next open one superior |
| `JsonParser.Parser.Comma` | `util/json.c:242-258` | makes the innermost open container superior again |
| `JsonParser.Parser.Round` | `util/json.c:160-290` | one round of the loop in place is one step of the specification |
| `JsonParser.Parser.Parse` | `util/json.c:153-300` | the in-place parser returns and leaves exactly what the specification of the run says, from any earlier state, with or without a token array, up to a comma without superior token; unused slots stay untouched |
| `JsonRoundTrip.ParseText` | `util/json.c:153-300` | parsing a printed tree in place returns the number of its tokens, leaves exactly these in the array, and touches no other slot |
| `JsonRoundTrip.CountTokens` | `util/json.c:153-300` | a dry run on a printed tree returns the number of slots it takes |
| `AesTables.TablesInverse` | `crypto/aes/aes_invsbox.c:26-43` | looking a byte up in the forward and then in the inverse table gives it back, for all 256 values |
| `Aes.SboxInverse` | `crypto/aes/aes_sbox.c:25-42` | the same for bytes as bit sets |
| `AesTables.SboxIsStandard` | `crypto/aes/aes_sbox.c:25-42` | the forward table is that of section 5.1.1 of FIPS 197: the affine transformation of the inverse in the field, for all 256 values |
| `Aes.Gf256Mul` | `crypto/aes/gf256mul.c:24-36` | the loop computes the product whose carry is taken from the first operand |
| `Aes.SmallProduct` | `crypto/aes/gf256mul.c:24-36` | for a first operand below 0x80 it is the carry-less product cut to eight bits; the reducer is never used |
| `Aes.FieldProductExactly` | `crypto/aes/gf256mul.c:24-36` | for a first operand below 0x80 it is congruent to the product in the field of section 4.2 of FIPS 197 if and only if the carry-less product fits a byte |
| `Aes.Multiples` | `crypto/aes/aes_dec.c:65-71` | the multiples by 2, 4 and 9 the mixing steps use |
| `Aes.MixedByte` | `crypto/aes/aes_enc.c:67-85` | a mixed byte is twice the sum of its byte and the next, plus its byte and the column sum, in carry-less arithmetic cut to eight bits |
| `Aes.MixColumnExactly` | `crypto/aes/aes_enc.c:67-85` | a mixed column is the one of section 5.1.3 of FIPS 197 if and only if the top bits of its four bytes are equal; where two neighbours differ the code loses the carry |
| `Aes.UnmixMix` | `crypto/aes/aes_dec.c:60-72` | the backward mixing of a column undoes the forward mixing |
| `Aes.MixTwice` | `crypto/aes/aes_enc.c:67-85` | the same for a whole state |
| `Aes.TurnedRows` | `crypto/aes/aes_enc.c:63-65` | the three row rotations are the byte permutation of the forward shift |
| `Aes.ShiftTwice` | `crypto/aes/aes_dec.c:97-99` | the backward shift of the rows undoes the forward one |
| `Aes.SubTwice` | `crypto/aes/aes_dec.c:100-103` | the inverse substitution undoes the forward one on a state |
| `Aes.KeyTwice` | `crypto/aes/aes_dec.c:56-59` | adding a round key twice changes nothing |
| `Aes.RoundUndone` | `crypto/aes/aes_dec.c:51-104` | a decryption round undoes the encryption round with the same key |
| `Aes.LastRoundUndone` | `crypto/aes/aes_dec.c:107-122` | the first decryption round undoes the last encryption round |
| `Aes.RoundsUndone` | `crypto/aes/aes_dec.c:124-134` | the rounds in reverse order undo the rounds |
| `Aes.DecryptionInverts` | `crypto/aes/aes_dec.c:124-134` | for every state, all round keys and every number of rounds from 1 on, decryption undoes encryption |
| `Aes.RoundTells` | `crypto/aes/aes_enc.c:54-109` | a round takes different states, or one state under different keys, to different states |
| `Aes.EveryRoundKeyMatters` | `crypto/aes/aes_enc.c:111-122` | changing any one round key, the first and the last included, changes the ciphertext of every state |
| `Aes.ShiftCol` | `crypto/aes/aes_enc.c:38-48` | turns one row of the state |
| `Aes.InvShiftCol` | `crypto/aes/aes_dec.c:40-50` | turns one row of the state back |
| `Aes.EncryptRound` | `crypto/aes/aes_enc.c:54-91` | the in-place round |
| `Aes.EncryptLastRound` | `crypto/aes/aes_enc.c:94-109` | the in-place last round |
| `Aes.DecryptRound` | `crypto/aes/aes_dec.c:51-104` | the in-place round |
| `Aes.DecryptFirstRound` | `crypto/aes/aes_dec.c:107-122` | the in-place first round |
| `Aes.EncryptCore` | `crypto/aes/aes_enc.c:111-122` | the state becomes its encryption |
| `Aes.DecryptCore` | `crypto/aes/aes_dec.c:124-134` | the state becomes its decryption |
| `Line.MinorNearest` | `disp/ks0713.c:432-437` | the minor coordinate is a nearest whole number to the ideal line |
| `Line.LineEnds` | `disp/ks0713.c:426-437` | the first point is the first end, the last point the second |
| `Line.LineMoves` | `disp/ks0713.c:435-437` | neighbouring points differ by one along the major axis and by at most one along the other |
| `Line.LineClose` | `disp/ks0713.c:426-437` | every point is within half a pixel of the segment |
| `Line.LineInside` | `disp/ks0713.c:426-437` | every point lies in the box of the ends, so no coordinate wraps |
| `Line.ErrRange` | `disp/ks0713.c:428-437` | err stays in [0, dx) for flat lines and in (-dy, 0] for steep ones |
| `Line.LoopStep` | `disp/ks0713.c:435-437` | what the two tests do to err and the point |
| `Line.NotYet` | `disp/ks0713.c:434-434` | the exit test holds at the last step and no earlier |
| `Line.DrawLine` | `disp/ks0713.c:424-439` | the endless loop stops after max(dx, dy) + 1 points, which are those of the closed form, in order |
| `Line.Ks0713DrawLine` | `disp/ks0713.c:424-439` | these points, none with a coordinate outside the signed 8-bit type |
| `Line.Ili9340DrawLine` | `disp/ili9340.c:609-632` | the same points, none with a coordinate outside the unsigned 16-bit type |
| `List.ContentsUnique` | `util/list.h:5-20` | the links determine the contents of a list |
| `List.Rotated` | `util/list.h:5-20` | any entry can play the head of the ring |
| `List.TestsMean` | `util/list.h:118-173` | the four tests answer emptiness, a single entry and the last entry |
| `List.InitListHead` | `util/list.h:16-20` | an empty list |
| `List.ListAdd` | `util/list.h:31-34` | the item comes first |
| `List.ListAddTail` | `util/list.h:35-38` | the item comes last |
| `List.ListDel` | `util/list.h:49-54` | the list without the entry, whose links are null |
| `List.ListDelInit` | `util/list.h:84-88` | the list without the entry, which becomes an empty list |
| `List.ListReplace` | `util/list.h:64-71` | the item takes the old node's place in the ring, also when the ring has no other node |
| `List.ListReplaceInit` | `util/list.h:73-78` | the same, and the old node becomes an empty list |
| `List.ListMove` | `util/list.h:95-99` | the entry leaves its list and comes first in the other, or in the same one |
| `List.ListMoveTail` | `util/list.h:106-111` | the entry leaves its list and comes last in the other, or in the same one |
| `List.ListRotateLeft` | `util/list.h:156-164` | the first entry becomes the last |
| `List.CutAt` | `util/list.h:175-185` | the list is split behind the entry |
| `List.ListCutPosition` | `util/list.h:187-213` | splits behind the entry; an empty list, or a single entry that is not the given one, is left alone, and so is the target |
| `List.ListSplice` | `util/list.h:229-239` | the spliced entries come first; the spliced head keeps its links |
| `List.ListSpliceTail` | `util/list.h:241-251` | the spliced entries come last |
| `List.ListSpliceInit` | `util/list.h:253-267` | the spliced entries come first; the spliced list becomes empty |
| `List.ListSpliceTailInit` | `util/list.h:269-284` | the spliced entries come last; the spliced list becomes empty |
| `List.CutThenSplice` | `util/list.h:187-239` | cutting and splicing back restores the list |
| `Sha256.RotrRotates` | `crypto/sha256.c:77-82` | the shifts and the or rotate as section 3.2 of FIPS 180-4 demands |
| `Sha256.SigmasAgree` | `crypto/sha256.c:101-104` | the sigma macros are the functions of section 4.1.2 |
| `Sha256.LoadedWord` | `crypto/sha256.c:131-133` | a loaded and swapped word is the word its 32 message bits spell |
| `Sha256.StoredWord` | `crypto/sha256.c:234-239` | a swapped and stored word gives its bits in message order |
| `Sha256.LengthStored` | `crypto/sha256.c:201-204` | the eight stored bytes are the 64 binary digits of the length |
| `Sha256.FinalBits` | `crypto/sha256.c:180-189` | the last message bytes with the final one bit, a partial last byte included |
| `Sha256.ShortTail` | `crypto/sha256.c:191-208` | up to 447 remaining bits one block holds the padding of section 5.1.1 |
| `Sha256.LongTail` | `crypto/sha256.c:191-208` | beyond that two blocks hold it |
| `Fips180.FoldJoin` | `crypto/sha256.c:217-226` | folding the compression over two parts in turn is folding it over the whole |
| `FipsConstants.FirstPrimes` | `crypto/sha256.c:107-116` | the list the next two rows refer to starts with 2 and goes on to the next prime at every step |
| `FipsConstants.KIsStandard` | `crypto/sha256.c:107-116` | round constant t is the first 32 binary places of the fractional part of the cube root of prime t, as section 4.2.2 demands |
| `FipsConstants.InitialHashIsStandard` | `crypto/sha256.c:52-54` | word i of the initial hash value is the same of the square root of prime i, as section 5.3.3 demands |
| `Sha256.Context.constructor` | `crypto/sha256.c:65-73` | the initial hash value of section 5.3.3 and length 0 |
| `Sha256.Context.MakeSchedule` | `crypto/sha256.c:129-139` | the message schedule of section 6.2.2 |
| `Sha256.Context.RunRounds` | `crypto/sha256.c:144-151` | the 64 rounds of section 6.2.2 |
| `Sha256.Context.NextBlock` | `crypto/sha256.c:124-158` | the compression of section 6.2.2, and 512 added to the length modulo 2^64 |
| `Sha256.Context.LastBlock` | `crypto/sha256.c:171-209` | after any whole blocks, the hash value is the digest of all bits handed over, for every length below 2^16 bits here |
| `Sha256.CtxToHash` | `crypto/sha256.c:234-246` | the output bytes spell the eight words in message order |
| `Sha256.Hash` | `crypto/sha256.c:217-228` | for every length below 2^32 the digest of the first len mod 2^29 bytes: the standard digest of the message whenever it is shorter than 2^29 bytes |
| `Sha256.HashInParts` | `crypto/sha256.c:124-209` | any split into whole blocks and a rest gives the digest of the message |

## Left out

- CoffeeFs.Coffee.Run: says nothing about what the code does after a collection has left the walk, a logged transfer of 65536 bytes or more, a write into a new log with regions beyond 16 bits, a seek behind the capacity, opening with mode 0, or log settings for tables of several batches; such a call ends the run of the model.
- CoffeeFs.Coffee.CfsWrite: is proved for log tables of one batch, the settings `CoffeeWrite.SettingsOk` names, and for files that are logged only while their regions fit the 16-bit index; `CoffeeWrite.NextRecordExact` covers the larger tables and `CoffeeLog.FoundAfterAppend` one record of a longer file. Empty records, which a stuck write goes on logging, are not modelled.
- CoffeeFs.Coffee.FindContiguousPages: requires `next_free` on the walk, because elsewhere the headers it reads are arbitrary bytes; `Valid` holds that until a collection strays.
- CoffeeFs.Coffee.WriteLogPage: requires a nonempty chunk; for an empty one, which only a stuck write asks for, the code logs a record of old bytes.
- CoffeeFs.Coffee.CfsCoffeeConfigureLog: takes the device write as ideal; on flash, settings stored a second time may need bits cleared, as `CoffeeWrite.ReconfigureClears` shows.
- EciesScheme.Encryption: takes the random exponent as an input; a zero shared point, which makes the original draw again, is reported instead.
- EciesScheme.RoundTrip: rests on irreducibility and associativity as hypotheses, and takes keys as bit vectors instead of hexadecimal strings.
- JsonParser.Parser.Parse: stops at a comma met without a superior token, where the code reads in front of the token array.
- Aes.DecryptionInverts: says nothing about conformance with section 5.1.3 of FIPS 197, which the code has only for the columns `Aes.MixColumnExactly` names.
- Sha256.Context.LastBlock: requires unused bits of a partial last byte to be zero, as the source's comment does.
- List: the `sync` field, which no list operation touches, and the entry and iteration macros.
- Line: what a pixel write does to the display buffer; the points are recorded in order instead. `int` is taken to be wider than 16 bits.
- Reluctant garbage collection, I/O semantics flags, directory listing and debug printing of Coffee, which are compiled out or only add easy members.
- Power loss in the middle of a Coffee operation and remounting a used device.
- Name uniqueness on the device when a file is reserved while all slots are referenced; it is proved for cached files.
- Random exponent generation, hexadecimal conversion, the curve constants and public key validation by order in `crypto/ecies.c`.
- The AES key schedule and the strict and parent-link builds of the JSON parser.
- Register, bus and pin traffic everywhere.
