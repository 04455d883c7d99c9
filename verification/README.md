# BlueSky, modelled and proved

BlueSky is a file-system proxy that keeps its data in cloud storage. It answers
NFS requests from a local cache, logs every change to a local journal, and
writes inodes, file blocks and an inode map to a log of numbered segments in the
cloud. This project models its core in Dafny and proves what that core has to
keep: the journal and the cloud together give back the last synced record of
every inode after a crash, a file is the bytes written to it, what is written can
be read back, and the protocols that run in several threads keep their promises
in every interleaving. Where the code does not keep such a promise, the model
follows the code, and the exact condition is proved.

`dafny verify dfyconfig.toml` checks the whole project.

## The parts

**Journal and recovery.** `Crc32c` defines the checksum as a bit-by-bit division
and proves the table loop against it. `Journal` holds the record format and the
check replay applies to it; `JournalFile` the writer and the forward scan;
`JournalReplay` the two scans of replay over a directory of files.
`JournalRecords` lifts journals from bytes to records, `JournalBridge` proves
that both replays agree, and `Recovery` and `RecoverySafety` model syncing,
flushing to the cloud, commit points, journal deletion and crashes as one
transition system and prove what every run keeps. `RecoveryWhole` proves what
comes back beside that; `RecoveryBytes` puts protocol and bytes together;
`RecoveryLimits` has the exact conditions the protocol needs and the runs that
break them; `RecoveryProgress` proves that passes can end and what they reclaim;
`ReplayLinks` follows what replay does with the links of a record, and so with the
blocks of a file.

**Files.** `BlockFile` models a regular file as an array of holes, references
and private buffers over a heap of counted strings, and proves every operation
against a flat sequence of bytes.

**Cloud log.** `CloudItem` is the format of items in the cloud, `CloudLog` the
recursive writer with its automatic segment flushes and uploads, `CloudCrypt`
the encryption passes and the scan for a checkpoint, `Rangeset` the index of a
cached segment. `GSequence`, `InodeMap` and `Checkpoint` are the inode map, the
sorted sequences it is built on, and its stored form; `InodeCodec` the stored
form of inodes; `Startup` follows a checkpoint from the end of a flush through
the store and back into memory; `Cleaner` is the merge of what a segment cleaner
has moved; `Eviction` the rule by which cached data is dropped.

**Requests.** `Rpc` reassembles ONC RPC messages from a stream; `Directory` holds
directories, renames and the paged listing.

**Store.** `StoreBarrier` models asynchronous operations, their notifiers and
barriers.

`Bytes` has little-endian numbers, `Options` values that may be missing.

## What the model assumes

- A write that a crash interrupts leaves a prefix of its bytes, followed by
  nothing or by the zeros of the preallocated file.
- In `Recovery`: what a run may not do is stated by `Proper`. A flush pass ends its
  drain only when no sync whose record lies before the marker is still on its way
  to the dirty list with a version the cloud will not hold, and the journal sequence number is read while the log is
  still in the file of the marker. The locks of the program enforce neither
  (bluesky/cache.c:155-156, bluesky/inode.c:375-391), and `RecoveryLimits` shows
  what happens otherwise. The marker is on disk when the pass goes on, for which
  the wait at bluesky/log.c:362 may come too early, and a checkpoint becomes
  visible in one step, after all its segments.
- `Recovery` is about inode records. A record brings back the blocks of its file
  only under the condition of `ReplayLinks.LinkSurvives`; in particular the marker
  must not fall between the records of the blocks and the record of the inode,
  which nothing prevents (bluesky/file.c:298-301).
- In `Eviction`: submitting an item is one step, which the inode lock ensures; a
  flush pass ends only when no item recorded before it began is still waiting for
  its sync to finish, which nothing ensures (`EndFlushExact`).
- The cipher undoes itself under the same counter block and keeps lengths; the
  authenticator has a fixed size. Nothing else is assumed of them.
- Link graphs in memory have no cycles: the recursive writer does not end on one.
- In `Startup`: a section of the checkpoint that an earlier run wrote reads back
  from its segment (after a restart there is none: loading leaves no range with a
  serialized form, so every section is written anew); ids are distinct and not zero, numbers fit their fields, and no
  record is longer than a signed 32-bit integer can say.
- Random numbers, clocks, what a read from a socket returns and what a fetch from
  the cloud returns are parameters.
- Memory allocation, fetches and local file operations succeed.

## What turned out not to hold

Each of these is stated with the exact condition under which the program does
meet the property.

- Recovery needs a published checkpoint. A file system that crashes before its
  first one starts over without looking at the journal (`RecoveryExact`,
  `CrashBeforeFirstCheckpoint`).
- An inode journaled before the file system was started over can come back beside
  the new ones (`RecoverExact`, `OldInodeReturns`).
- The file of the commit point can be deleted, and then synced records are lost,
  exactly if the journal sequence number was read after the log had moved on
  (`LateSequenceExact`, `LateDeletionExact`, `LateSequenceNumberLoses`).
- A flush pass that finds the dirty list empty while a sync is still in progress
  can put the commit point behind a record that is nowhere else (`EndDrainExact`,
  `UnfinishedSyncLoses`, `EarlyDrainLoses`); the data of an item can be dropped for
  the same reason when it is nowhere else (`EndFlushExact`, `UnfinishedItemLost`).
- Replay resolves a link only if the linked item was replayed before it or is named
  by the checkpoint. A block whose record lies before the commit point comes back
  as a reference to nothing when its file is rewritten and synced before a crash
  (`LinkSurvives`, `BlockSurvives`, `OldBlockLost`, `OldBlockLostInReplay`).
- A barrier can be wrong about what it waits for exactly if a notifier is added to
  an operation that has already released it, or an operation is added to a complete
  barrier (`ProperExact`, `LateNotifierBreaks`, `LateNotifierCompletesEarly`).
- The folded name index loses an entry when another one that folds alike is
  removed (`Directory.DirInode.Remove`, `FoldedMisses`), and a rename without
  regard to case can lose a file (`RenameExact`, `FoldedRenameLoses`).
- A read that would block leaves the room made for it in the message
  (`AgainExact`, `AgainInBody`, `AgainSpoils`).
- A file with holes does not survive being stored and loaded (`InodeRoundTrip`).
- A link to an item with the zero id reads back as no link (`LinksRead`).
- The first checkpoint of a cleaner is marked as seen and never merged
  (`NeedsMergingExact`, `FirstCheckpointSkipped`).
- The next inode number wraps exactly if the largest inode number is in use, after
  loading a checkpoint and after replay (`NextInumFree`, `NextAboveReplayed`).
- A range look-up misses an offset exactly if some range reaches past the end of a
  later one into the gap behind it, which insertion does not prevent
  (`LookupExact`, `OverlapMisses`).
- Stored directory entries that share a cookie or a name load into indices that
  disagree (`Directory.DirInode.Reload`).

One more thing the model has to follow: the record writer clears the
authenticator and the counter block of a new header with a length of zero
(bluesky/cloudlog.c:456-457), so they hold arbitrary bytes until encryption, and
`CloudLog.Log.Format` treats them as such.

## Model

| member | source | states |
|---|---|---|
| `Crc32c.Update` | bluesky/crc32c.c:96-104 | The table loop computes, for every seed and byte string, the register of the bit-by-bit reflected division by the Castagnoli polynomial. |
| `Crc32c.TableIsDivision` | bluesky/crc32c.c:24-89 | Each of the 256 table entries is the remainder of its own index after eight division steps. |
| `Crc32c.TableRoundDivides` | bluesky/crc32c.c:100-101 | One table look-up is eight steps of the division with the next byte brought in. |
| `Crc32c.CrcComposes` | bluesky/log.c:241-255 | A checksum carried from piece to piece is the checksum of the concatenation. |
| `Crc32c.CrcInjective` | bluesky/crc32c.c:96-104 | Two registers that agree after the same bytes agreed before them. |
| `Crc32c.FinalizeIsComplement` | bluesky/crc32c.c:106-109 | The finalized bytes, read as a little-endian word, are the complement of the register. |
| `Crc32c.ResidueIffFinalized` | bluesky/bluesky-private.h:395-398 | After any prefix exactly one four-byte suffix leaves the register at the validator constant: the finalized checksum (section 12.1 of RFC 3720). |
| `Crc32c.BurstDetected` | bluesky/crc32c.c:96-104 | Changing up to four neighbouring bytes of any message always changes its checksum. |
| `Journal.CompleteRecordAccepted` | bluesky/log.c:817-852 | A record written in full is accepted and read back with the fields it was written with. |
| `Journal.EntryDeterminesItem` | bluesky/log.c:937-951 | What replay reads of a record determines the whole item. |
| `Journal.TornTailExact` | bluesky/log.c:817-852 | For every record, every length of prefix that reached the disk and every run of zero fill behind it, the check accepts exactly when the bytes on disk are the whole record. |
| `Journal.AcceptedIffWritten` | bluesky/log.c:817-852 | On arbitrary bytes: a complete record of some item lies at an offset if and only if the check accepts there and the header sizes add up without 32-bit wrap-around and fit the type field. |
| `Journal.ChecksumDecides` | bluesky/log.c:842-849 | With header and footer magic in place only the true checksum is accepted. |
| `JournalFile.BuildRecord` | bluesky/log.c:231-256 | The record the log thread writes piece by piece, checksum carried along, is the record the check accepts. |
| `JournalFile.ScanJournal2` | bluesky/log.c:923-951 | The forward scan loop returns every record up to the first rejected one, from any bytes and any start. |
| `JournalFile.ScanSuffix` | bluesky/log.c:923-989 | From any record boundary the scan returns exactly the records from there on, in order and at their offsets. |
| `JournalFile.FillRejected` | bluesky/log.c:162-164 | Zero fill of a preallocated file is never taken for a record. |
| `JournalFile.ScanRoundTrip` | bluesky/log.c:182-288 | Write/scan round trip: a preallocated file gives back, from any record boundary, exactly the items written to it. |
| `JournalFile.ScanAfterCrash` | bluesky/log.c:923-989 | After a crash during a write the scan returns the earlier records, and the one being written exactly when all its bytes are on disk. |
| `JournalFile.WrittenNext` | bluesky/log.c:223-229 | Appending where the writer appends keeps a file well formed; a file with two or more records is shorter than the segment limit. |
| `JournalFile.LogWriter.LogOpen` | bluesky/log.c:128-168 | The open file is synced first; the next one gets the first free number from the next one up and starts empty; the earlier files stay as they are. |
| `JournalFile.LogWriter.LogCommit` | bluesky/log.c:91-126 | Everything written so far is on disk. |
| `JournalFile.WrittenScans` | bluesky/log.c:162-164 | A file as the writer leaves it, preallocated to its full length, scans as exactly the items written. |
| `JournalFile.LogWriter.WriteItem` | bluesky/log.c:193-279 | One item is written at the record boundary the returned location names: a scan of all files, zero fill included, finds what it found before and then exactly this item there; no earlier byte changes; a new file is started exactly if there is none, or the last one has something in it and the item would reach its limit. |
| `JournalFile.LogWriter.LogThread` | bluesky/log.c:182-288 | Round trip of the writer: after draining a queue, scanning all files with their zero fill finds exactly the queue behind what was there, in order and at the returned locations, and all of it has been synced. |
| `JournalReplay.ScanJournal` | bluesky/log.c:856-876 | The scan of one file finds its last commit record. |
| `JournalReplay.Replay` | bluesky/log.c:991-1052 | Replay returns what the forward scan finds from the newest commit position on, up to the first missing file. |
| `JournalReplay.ReplayFromCommit` | bluesky/log.c:991-1052 | On files that hold whole records with torn or zero tails, some files deleted, replay returns exactly the records at or after the newest commit point. |
| `JournalRecords.FindsLastCommit` | bluesky/log.c:996-1019 | The backward scan finds the last commit record as long as only files before its commit point are missing. |
| `JournalRecords.ReplayWhole` | bluesky/log.c:1029-1046 | The forward scan reads every later record as long as no file from the start point on is missing. |
| `JournalBridge.SamePoint` | bluesky/log.c:996-1019 | Scanning the bytes backwards finds the commit point the record-level scan finds. |
| `JournalBridge.ByteReplayRestores` | bluesky/log.c:991-1052 | Replaying the bytes of a journal restores, for every inode, exactly the record that the record-level replay restores. |
| `RecoverySafety.KeepsWrite` | bluesky/log.c:193-279 | Journaling a new record of an inode keeps the recovery invariant. |
| `RecoverySafety.KeepsFsync` | bluesky/log.c:91-126 | Syncing the journal file keeps it. |
| `RecoverySafety.KeepsRotate` | bluesky/log.c:128-168 | Starting a new journal file keeps it. |
| `RecoverySafety.KeepsFinish` | bluesky/inode.c:359-392 | A sync that returns moves its inode to the dirty list and keeps it. |
| `RecoverySafety.KeepsBeginPass` | bluesky/log.c:350-367 | Writing the marker keeps it. |
| `RecoverySafety.KeepsReadSequence` | bluesky/cache.c:155-156 | Reading the journal sequence number, at any time after the marker, keeps it. |
| `RecoverySafety.KeepsDrainOne` | bluesky/cache.c:158-191 | Writing one dirty inode to the cloud log keeps it. |
| `RecoverySafety.KeepsEndDrain` | bluesky/cache.c:160-162 | Ending the drain on an empty dirty list keeps it, if every sync still in progress was journaled behind the marker or has its version on the way to the cloud. |
| `RecoverySafety.KeepsPublish` | bluesky/cache.c:193-222 | Publishing the checkpoint keeps it, and so does finding no need for one. |
| `RecoverySafety.KeepsWriteCommit` | bluesky/log.c:369-391 | Writing the commit record that names the marker keeps it. |
| `RecoverySafety.KeepsEndPass` | bluesky/cache.c:224-231 | Advancing the watermark keeps it, if the sequence number read is not past the file of the marker. |
| `RecoverySafety.KeepsCollect` | bluesky/cache.c:373-397 | Deleting a journal file below the watermark keeps it. |
| `RecoverySafety.KeepsCrashLoaded` | bluesky/inode.c:143-147 | Restarting from a checkpoint and the journal, with any prefix of the unsynced tail left, keeps it. |
| `RecoverySafety.KeepsCrashFresh` | bluesky/inode.c:147-157 | Restarting without a checkpoint begins a new history behind the old journal and keeps it. |
| `RecoverySafety.StepKeeps` | bluesky/cache.c:149-232 | Every step of every thread, and every crash, keeps the invariant; only the end of the drain and the end of the pass need a condition. |
| `RecoverySafety.RecoveryExact` | bluesky/log.c:991-1052 | In every state that meets the invariant, a crash with any prefix of the unsynced tail restores the last journaled record of every inode if and only if a checkpoint was published or nothing was journaled. |
| `RecoverySafety.RecoverySafe` | bluesky/cache.c:149-232 | The same over every run from a new file system, through any number of steps and crashes. |
| `RecoverySafety.AckedSurvives` | bluesky/inode.c:359-392 | Once a checkpoint exists, an inode whose sync has returned comes back with exactly that record after any crash, unless a newer sync is in progress. |
| `RecoveryWhole.RecoverExact` | bluesky/log.c:991-1052 | In every state that meets the invariant, what comes back after a crash is exactly the last journaled record of every inode, and nothing else, if and only if no inode of an older history is in the cloud or journaled behind the commit point. |
| `RecoveryWhole.RecoveryComplete` | bluesky/cache.c:149-232 | After any run and any crash nothing comes back that was never journaled; in a file system that was never started over, exactly the last journaled records come back. |
| `RecoveryWhole.JournaledKeeps` | bluesky/cache.c:149-232 | Every step keeps: whatever is dirty, on its way to the cloud or in the cloud has a record on disk. |
| `RecoveryWhole.OldInodeReturns` | bluesky/inode.c:143-157 | A run from a new file system in which an inode from before it was started over comes back. |
| `RecoveryProgress.PassReclaims` | bluesky/cache.c:149-232 | From every state between two flush passes there is a run that finishes every sync and goes through a whole pass: then nothing waits, the cloud has the last journaled version of every inode, the next pass may begin, and every journal file before the one the log was in may be deleted. |
| `RecoveryProgress.EveryPassCanEnd` | bluesky/cache.c:149-232 | The same at every such point of every run from a new file system. |
| `RecoveryBytes.CrashReplaysBytes` | bluesky/log.c:991-1052 | Protocol and bytes together: after any run and any crash, replaying the bytes of the files that are left over the published checkpoint gives back the last journaled record of every inode. |
| `RecoveryLimits.CrashBeforeFirstCheckpoint` | bluesky/inode.c:143-157 | A file system that crashes before its first checkpoint does not get its journaled root back: the journal is not consulted. |
| `RecoveryLimits.LateSequenceExact` | bluesky/cache.c:155-156 | When a pass is about to end, every continuation survives every crash if and only if the sequence number was read while the log was still in the file of the marker. |
| `RecoveryLimits.LateDeletionExact` | bluesky/cache.c:373-397 | At that moment every set of files below the sequence number may be deleted if and only if that number is not past the file of the marker, or everything from the marker on is up to date without them: the cloud agrees with it, and no file that may be missing makes replay stop at an older record. |
| `RecoveryLimits.LateSequenceLoses` | bluesky/cache.c:155-156 | If the number was read later, one more sync and one deletion lose a record, whatever the state. |
| `RecoveryLimits.LateSequenceNumberLoses` | bluesky/cache.c:155-156 | Such a run from a new file system, for every root. |
| `RecoveryLimits.DrainExact` | bluesky/cache.c:158-191 | When the dirty list is empty, the marker is a good commit point if and only if every sync still in progress from before it already has its record on the way to the cloud. |
| `RecoveryLimits.EndDrainExact` | bluesky/cache.c:158-191 | When a drain is about to end, every continuation survives every crash if and only if that is so. |
| `RecoveryLimits.UnfinishedSyncLoses` | bluesky/inode.c:375-391 | If one has not, ending the drain loses its record, whatever the state. |
| `RecoveryLimits.EarlyDrainLoses` | bluesky/cache.c:160-162 | Such a run from a new file system, for every root. |
| `ReplayLinks.Replayer.ReloadItem` | bluesky/log.c:878-921 | Every link id of a replayed record is looked up among the known items; the stored locations are not used. |
| `ReplayLinks.SectionsRead` | bluesky/log.c:878-912 | From the record of any item replay takes exactly the data it was written with and the ids in its links section, in order. |
| `ReplayLinks.Replayer.Reload` | bluesky/log.c:942-982 | Replay leaves every inode as what its last record deserializes to with the links it could resolve, or nothing where the payload does not deserialize; marks exactly the replayed inodes dirty and knows every replayed id; the next inode number becomes one that no replayed record forbids and is otherwise kept or one past some replayed inode. |
| `ReplayLinks.NextAboveReplayed` | bluesky/log.c:967-970 | After replay the next inode number is above every replayed inode if and only if none of them has the largest number there is. |
| `ReplayLinks.LinkSurvives` | bluesky/log.c:895-912 | A link of a replayed record resolves if and only if its item was replayed no later than the record from the commit point on, or its id was known from the checkpoint. |
| `ReplayLinks.BlockSurvives` | bluesky/serialize.c:216-226 | And so a block of a replayed file is a reference to its item exactly then, and to nothing otherwise. |
| `ReplayLinks.LinkSurvivesReplay` | bluesky/log.c:991-1052 | The same for replay over the bytes of the journal directory, from the commit point it finds. |
| `ReplayLinks.OldBlockLost` | bluesky/serialize.c:216-226 | For all block contents, inode attributes, ids and locations: two blocks written and flushed, one rewritten and synced; after a crash the file loads with the other one a reference to nothing. |
| `ReplayLinks.OldBlockLostInReplay` | bluesky/log.c:991-1052 | That journal as bytes, with any zero fill, through both scans of replay. |
| `ReplayLinks.SomeStory` | bluesky/file.c:283-308 | Such a journal exists. |
| `BlockFile.RegularFile.StringDup` | bluesky/util.c:148-169 | A mapped or shared string is copied and loses one reference; an unshared one is returned as it is. |
| `BlockFile.RegularFile.BlockFetch` | bluesky/file.c:270-280 | Reading an item back changes no byte of any block. |
| `BlockFile.RegularFile.BlockTouch` | bluesky/file.c:46-83 | The block gets a private buffer holding its bytes, or zeros where it is a hole or need not be preserved; no item of the log changes. |
| `BlockFile.RegularFile.ResizeBlock` | bluesky/util.c:176-187 | A block is cut, or padded with zeros, in its own buffer. |
| `BlockFile.RegularFile.Truncate` | bluesky/file.c:88-176 | The flat contents are cut or zero-padded to the new size; block count, block lengths and the dirty count stay exact; a size over the limit changes nothing. |
| `BlockFile.RegularFile.DropBlocks` | bluesky/file.c:137-148 | Cutting blocks off leaves the others as they are, and of all strings exactly the private buffers of the blocks cut off are freed. |
| `BlockFile.RegularFile.Write` | bluesky/file.c:178-212 | The flat contents get the data spliced in; a range outside the file changes nothing; no byte of an item handed to the log changes. |
| `BlockFile.RegularFile.Read` | bluesky/file.c:214-268 | Exactly the requested slice of the flat contents, or nothing for a range outside the file. |
| `BlockFile.RegularFile.BlockFlush` | bluesky/file.c:283-308 | A dirty block becomes a new item with the same bytes, held once by the log; the contents stay. |
| `BlockFile.RegularFile.FileFlush` | bluesky/file.c:311-319 | No block is dirty afterwards, the dirty count is zero and the contents are unchanged. |
| `BlockFile.RegularFile.ItemLogged` | bluesky/log.c:198-279 | When the log thread is done with an item its buffer gives way to a mapped copy with the same bytes, unless it was in the journal before; it is held once less and no contents change. |
| `BlockFile.RegularFile.DropCached` | bluesky/file.c:322-342 | The contents are unchanged, and exactly the items of this file that nobody holds and that have a location lose their copy in memory. |
| `BlockFile.ResizedFlat` | bluesky/file.c:88-176 | Resizing block by block is resizing the flat file. |
| `BlockFile.SplicedFlat` | bluesky/file.c:192-208 | Writing a chunk into one block is splicing it into the flat file. |
| `BlockFile.BufferWritten` | bluesky/file.c:46-83 | Overwriting a block's own buffer in place changes no other block and no item: buffers are never shared. |
| `BlockFile.BufferHandedOver` | bluesky/file.c:289-306 | A buffer handed to a new item stops being any block's own, and no block and no item changes its bytes. |
| `Rpc.ReadIsFeed` | nfs3/rpc.c:727-809 | One read of several bytes does what as many reads of one byte do. |
| `Rpc.RunIsFeed` | nfs3/rpc.c:727-809 | Any sequence of reads does what the bytes do one at a time. |
| `Rpc.ChunkIndependent` | nfs3/rpc.c:727-809 | For arbitrary bytes, two ways of cutting the same stream into reads dispatch the same messages and leave the same state. |
| `Rpc.StreamReassembled` | nfs3/rpc.c:727-809 | For all messages, all fragmentations including empty fragments and all splits into reads, what is dispatched is what was sent, up to the first message over the limit or refused (section 11 of RFC 5531). |
| `Rpc.AllDelivered` | nfs3/rpc.c:603-683 | All messages are delivered, in order, if and only if each fits the size limit fragment by fragment and can be processed. |
| `Rpc.DispatchExact` | nfs3/rpc.c:603-683 | What is done with any message that holds a call header: refused if it is not a call of RPC version 2, answered as unavailable if it is not for version 3 of the NFS program, and otherwise dispatched if and only if what follows is two credentials under the size limit, with exactly the bytes behind them. |
| `Rpc.ShortRefused` | nfs3/rpc.c:612-615 | A message shorter than a call header is refused. |
| `Rpc.CallDispatched` | nfs3/rpc.c:603-683 | Every call built from big-endian words (section 9 of RFC 5531), with any two credentials under the size limit, is dispatched with its transaction id, procedure and exactly the arguments it carries. |
| `Rpc.SmallFits` | nfs3/rpc.c:745-752 | A message with four bytes to spare under the limit fits however it is cut. |
| `Rpc.ReplyDecodes` | nfs3/rpc.c:229-246 | A reply frame decodes, under the same automaton, to exactly one message: the transaction id, the words of an accepted reply, and the result. |
| `Rpc.RpcConnection.DoRead` | nfs3/rpc.c:727-809 | One read callback, however the read ended: end of file and errors close the connection, otherwise fragment length, header count and message buffer follow the automaton; the result says whether to keep the connection. |
| `Rpc.FeedClosed` | nfs3/rpc.c:745-772 | A closed connection takes no more bytes: whatever arrives changes nothing and dispatches nothing. |
| `Rpc.AgainExact` | nfs3/rpc.c:755-762 | A callback that finds nothing to read leaves the connection as it was if and only if it asked for nothing: the room made in the message buffer is not given back. |
| `Rpc.AgainInBody` | nfs3/rpc.c:755-762 | Inside the last fragment of any message, that changes what is dispatched or closes the connection, whatever the rest of the message. |
| `Rpc.AgainSpoils` | nfs3/rpc.c:755-762 | Between any two fragments of any message, that puts four bytes nobody sent into the message dispatched. |
| `GSequence.FoundBefore` | bluesky/imap.c:85-89 | In a sorted sequence a key is present exactly when the element before the search position is it. |
| `GSequence.InsertSorted` | bluesky/dir.c:151-152 | Sorted insertion of a new key keeps the sequence sorted. |
| `InodeMap.InodeTable.constructor` | bluesky/inode.c:103-130 | A new inode map is empty. |
| `InodeMap.InodeTable.FindRange` | bluesky/imap.c:75-123 | The range an inode number falls into is found, or made as exactly one 4096-aligned window; the map does not change; no range means the number is not in the map. |
| `InodeMap.InodeTable.Lookup` | bluesky/imap.c:75-155 | The whole operation refines a plain map: look up, create without an item, delete; a range that may change loses its serialized form. |
| `InodeMap.InodeTable.SetItem` | bluesky/cloudlog.c:481-483 | Setting the item of an entry just looked up for writing is one map update. |
| `InodeMap.InodeTable.Update` | bluesky/cloudlog.c:477-485 | Pointing an inode number at its newest item is one map update. |
| `InodeMap.NewWindow` | bluesky/imap.c:93-122 | The neighbour bounds never cut into a new window: it is aligned, whole and disjoint from the others, without 64-bit overflow. |
| `InodeMap.CoveringRange` | bluesky/imap.c:85-89 | If some range covers an inode number, the search lands on it. |
| `InodeMap.WindowChanged` | bluesky/imap.c:125-154 | Changing one range inside its window changes the map at that inode number only. |
| `Checkpoint.Serialize` | bluesky/imap.c:159-235 | The record written is the record of the map as it stands; there is none exactly when every range already had its serialized form; afterwards every range has a current one. |
| `Checkpoint.Deserialize` | bluesky/imap.c:273-327 | The map, the cleaner sequence number and the next inode number are those the record's sections and version vector say, entry by entry; no range is left with a serialized form, so every section is written anew after a restart; a record that fails a check changes nothing; one with a section shorter than its links is read past its end, and then nothing is promised. |
| `Checkpoint.ReadVector` | bluesky/imap.c:287-300 | The loop over the version vector keeps the last entry for the cleaner's directory. |
| `Checkpoint.LoadOne` | bluesky/imap.c:303-325 | Loading a section enters its inode numbers in order, and reads past its end exactly if it has fewer of them than links. |
| `Checkpoint.HeaderRead` | bluesky/imap.c:273-300 | A written header passes every assertion of the reader, the length one included, and gives the cleaner sequence back. |
| `Checkpoint.HeaderExact` | bluesky/imap.c:277-288 | The assertions of the reader in terms of bytes: the eight bytes of the magic number, a count of at most two, and exactly the length that the count and the number of links call for. |
| `Checkpoint.SectionsLoad` | bluesky/imap.c:302-326 | Loading the sections of a map on top of another map adds exactly the written map. |
| `Checkpoint.CheckpointRestores` | bluesky/imap.c:186-327 | Round trip: a fresh file system loads the same map and the same cleaner sequence number from the record of any valid map. |
| `Checkpoint.NextInumFree` | bluesky/imap.c:321-321 | After loading, the next inode number is above every number in use if and only if the largest 64-bit number is not in use. |
| `CloudItem.SerializeLinks` | bluesky/serialize.c:277-293 | The link loop writes an id for every link and a location for every link that is there. |
| `CloudItem.DeserializeLinks` | bluesky/serialize.c:353-372 | The reading loop recovers links from the two lists, consuming a location only for a non-zero id, and stops on a short list. |
| `CloudItem.LinksRead` | bluesky/serialize.c:272-381 | Links read back as written if and only if no linked item has the zero id. |
| `CloudItem.RecordFields` | bluesky/bluesky-private.h:285-293 | The header of a record in front of any bytes announces exactly the record's size and section lengths. |
| `CloudItem.ItemRead` | bluesky/serialize.c:298-381 | An item read from its record, whatever follows it, is the item written, if and only if no linked item has the zero id. |
| `CloudCrypt.CutFlatten` | bluesky/cloudlog.c:621-633 | Walking records laid end to end visits exactly those records. |
| `CloudCrypt.EncryptSegment` | bluesky/cloudlog.c:616-634 | In place: every record is replaced by its encrypted form and nothing else changes; the pass stops if and only if some record lacks the plain magic. |
| `CloudCrypt.DecryptSegment` | bluesky/cloudlog.c:644-680 | In place: every record is replaced by its decrypted form; the range set gains exactly the record boundaries; the pass stops if and only if some magic is unknown. |
| `CloudCrypt.KnownExact` | bluesky/crypto.c:222-229 | The records the decryption pass goes on with are those that start with one of the two magic numbers, which differ in their last byte. |
| `CloudCrypt.EncryptedSized` | bluesky/crypto.c:154-210 | Encryption keeps a record's size, type and lengths, and its result passes authentication. |
| `CloudCrypt.EncryptedBytes` | bluesky/crypto.c:154-210 | Byte by byte: the payload is enciphered unless the item is a checkpoint or an inode-map section, everything else from the type byte on is as it was, and the header gains the magic of encrypted records, the counter block and the authenticator of what is protected. |
| `CloudCrypt.DecryptedBytes` | bluesky/crypto.c:212-291 | Byte by byte: a record that is refused or already plain is left as it is, and any other has its magic and the enciphered payload restored and nothing else changed. |
| `CloudCrypt.ForgedRefused` | bluesky/crypto.c:241-252 | A record whose authenticator is not that of its bytes is never read as an item after the pass. |
| `CloudCrypt.BlockRoundTrip` | bluesky/crypto.c:154-291 | Decrypting an encrypted record is accepted and restores the magic and everything from the type byte on. |
| `CloudCrypt.RelocationCommutes` | bluesky/crypto.c:204-207 | Rewriting the trailing locations of an encrypted record gives the encryption of the record with those locations. |
| `CloudCrypt.RelocatedAccepted` | bluesky/crypto.c:212-291 | A record whose locations alone were rewritten is still authentic and reads as the original with the new locations. |
| `CloudCrypt.SegmentRoundTrip` | bluesky/cloudlog.c:616-680 | For any segment of records: encryption keeps every boundary, decryption visits and accepts exactly those records and gives back records of the same items. |
| `CloudCrypt.LayoutDisjoint` | bluesky/cloudlog.c:662-673 | The ranges noted by the decryption pass do not overlap. |
| `CloudCrypt.ItemAtLocation` | bluesky/cloudlog.c:449-471 | In a segment of records every item is read back from the offset its record starts at. |
| `CloudCrypt.FindCheckpoint` | bluesky/imap.c:361-385 | The scan loop keeps the last checkpoint record of a segment; sizes are added in a signed 32-bit integer, and a record whose size comes out as zero is never got past. |
| `CloudCrypt.CheckpointFound` | bluesky/imap.c:361-389 | If the last record of a segment is a checkpoint and all are shorter than 2^31 bytes, the scan ends and finds exactly that one. |
| `Rangeset.Ranges.Insert` | bluesky/util.c:288-305 | Insertion keeps the order and adds exactly one range. |
| `Rangeset.Ranges.Lookup` | bluesky/util.c:307-321 | The last range starting at or before the offset if it holds the offset; whatever is found holds it, and while no range is shadowed nothing that holds it is missed. |
| `Rangeset.Ranges.LookupNext` | bluesky/util.c:325-341 | The result is a range of least start at or behind the offset; none means all start before it. |
| `Rangeset.LookupExact` | bluesky/util.c:307-321 | For all ordered ranges: no offset is missed if and only if no range reaches past the end of a later one into the gap behind that one. |
| `Rangeset.DisjointUnshadowed` | bluesky/util.c:307-321 | Ranges that do not overlap are not shadowed. |
| `Rangeset.OverlapMisses` | bluesky/util.c:288-321 | Two insertions, which refuse nothing, after which the look-up misses a range that holds the offset. |
| `CloudLog.Log.constructor` | bluesky/imap.c:344-345 | A log starts a new segment behind those already there, with nothing written; what has a place already was written earlier. |
| `CloudLog.Log.Format` | bluesky/cloudlog.c:436-468 | The record of an item holds its data and its links at their present locations. |
| `CloudLog.Log.Append` | bluesky/cloudlog.c:436-493 | One item is written once, its location names its record, the inode map points an inode at it, and no other item changes. |
| `CloudLog.Log.Serialize` | bluesky/cloudlog.c:422-502 | On any acyclic graph: terminates; the item and all it links to are placed; each item is written at most once; nothing outside any closed set holding the item is written; across segment flushes every record stays where its location says; the newest record is the item's; segments are handed over when they are longer than the limit and, with aggregation, only then. |
| `CloudLog.Log.Flush` | bluesky/cloudlog.c:575-612 | The segment being filled is handed over whole under its sequence number, which no other has, and the next one starts empty; an empty one is not handed over. |
| `CloudLog.Log.UploadComplete` | bluesky/cloudlog.c:504-554 | A completed upload marks exactly the items of its segment as stored; a failed one changes nothing. |
| `CloudLog.MarkAll` | bluesky/cloudlog.c:512-523 | The loop over the segment's items moves each from pending to stored. |
| `CloudLog.ResolvedKept` | bluesky/cloudlog.c:422-502 | Placing an item changes nothing that a record already written says: its links were final. |
| `CloudLog.EndsBefore` | bluesky/cloudlog.c:449-471 | Everything written earlier lies lexicographically before the next record. |
| `CloudLog.Appended` | bluesky/cloudlog.c:436-493 | Appending an item whose links are placed keeps the log in order: records at their locations, links final and further back, flags exact. |
| `CloudLog.HandedOver` | bluesky/cloudlog.c:575-612 | Starting a new segment keeps the log in order. |
| `CloudLog.SettledStored` | bluesky/cache.c:202-221 | Once nothing waits to be uploaded, every written item is marked as stored and reads back from the stored segment at its location, links included. |
| `CloudLog.ReachableStored` | bluesky/cache.c:193-222 | Then everything reachable by any path of links from a placed item is stored. |
| `CloudLog.PathGoesBack` | bluesky/cloudlog.c:431-434 | Following links through what this log has written goes strictly back in the log, so no path returns to where it was. |
| `CloudLog.MappedNewest` | bluesky/cloudlog.c:476-485 | After any run the inode map points every inode number at the inode item written last under it, and is unchanged for all others. |
| `Startup.Publish` | bluesky/cache.c:193-221 | The end of a flush pass with the checkpoint record of an inode map: afterwards nothing waits to be uploaded, the newest record of the newest segment is that checkpoint's, and it and everything it leads to are as they were. |
| `Startup.ReadsBack` | bluesky/cloudlog.c:557-573 | Every written item, once its segment has been encrypted, stored, fetched and decrypted, is read back from its location with its links, whatever older segments the store holds. |
| `Startup.ScanFinds` | bluesky/imap.c:332-389 | The checkpoint is in the segment of the highest number, segments of earlier runs included, and the scan of that segment after decryption finds exactly its record. |
| `Startup.RecordReads` | bluesky/imap.c:302-326 | Following the checkpoint's links through the store, into older segments where a section was written by an earlier run, and resolving ids gives the very record that was serialized. |
| `Startup.StartupRestores` | bluesky/imap.c:332-412 | End to end, over serialization, segment flushes, encryption, the scan and the load, after any number of restarts: start-up gets back the inode map and the cleaner sequence number of the last published checkpoint. |
| `Directory.DirInode.constructor` | bluesky/inode.c:262-278 | A new directory is empty and its indices agree. |
| `Directory.DirInode.Lookup` | bluesky/dir.c:64-74 | The name map's inode number, or 0. |
| `Directory.DirInode.FoldedLookup` | bluesky/dir.c:77-90 | What is found is a live entry that folds alike; while the folded index is complete, nothing is found only if no name folds alike. |
| `Directory.DirInode.PickCookie` | bluesky/dir.c:126-149 | The chosen cookie is in [4, 2^31) and no entry has it. |
| `Directory.DirInode.Insert` | bluesky/dir.c:110-160 | Refused exactly if the name is there; otherwise one update of the name map; all three indices stay in step. |
| `Directory.DirInode.Remove` | bluesky/dir.c:164-188 | One deletion from the name map; all three indices stay in step; the folded index stays complete if and only if no other name folds alike. |
| `Directory.DirInode.ReadDir` | nfs3/nfs3.c:951-998 | A reply holds the entries behind the cookie in order, missing none up to its last; 64 of them unless there are no more; end-of-directory exactly when none is left. |
| `Directory.DirInode.Reload` | bluesky/serialize.c:228-252 | Reloading stored entries, in any order: the sequence is sorted by cookie, the last of equal names wins, and all three indices agree if and only if no two entries share a cookie or a name and all cookies are in range; entries stored in order come back as they were. |
| `Directory.Rename` | bluesky/dir.c:192-230 | Both kinds of look-up: fails, changing nothing, exactly if the source is not found or the target is and may not be overwritten; otherwise the maps change by removing and adding the names as given; with regard to case that is the rename asked for, also when the directories or the names coincide. |
| `Directory.RenameExact` | bluesky/dir.c:202-229 | What the code does to the maps is the rename asked for if and only if the names found are the names given, but for the new name, and no other file has the new name. |
| `Directory.FoldedRenameLoses` | bluesky/dir.c:202-229 | Without regard to case, renaming any file onto any name with a capital that is there reports success and loses the file. |
| `Directory.FoldedMisses` | bluesky/dir.c:110-188 | For any two names that fold alike: after inserting both and removing one, the folded look-up misses the other. |
| `Directory.CapitalA` | bluesky/util.c:60-64 | Such names exist: folding makes ASCII capitals small. |
| `Directory.FoldsAlike` | bluesky/util.c:60-64 | Two names fold alike if and only if they differ in the case of ASCII letters only. |
| `Directory.ListingComplete` | nfs3/nfs3.c:951-998 | For any updates between calls, a listing that continues from the last cookie until the end returns no entry twice, only entries present when their page was read, and every entry present throughout (section 3.3.16 of RFC 1813). |
| `Directory.ListingEnds` | nfs3/nfs3.c:951-998 | Every page that is not the last brings 64 new cookies, so no listing goes on for more than 2^25 pages. |
| `StoreBarrier.CompleteKeeps` | bluesky/store.c:231-306 | Completing an operation releases its barrier exactly when no notifier is outstanding, and keeps every count exact. |
| `StoreBarrier.RunKeeps` | bluesky/store.c:383-387 | Running a notifier keeps every count exact. |
| `StoreBarrier.FinishKeeps` | bluesky/store.c:388-394 | The last notifier to finish releases the operation's barrier; every count stays exact. |
| `StoreBarrier.AddKeeps` | bluesky/store.c:193-209 | Adding a notifier to an operation that has not released its barrier keeps every count exact. |
| `StoreBarrier.BeginKeeps` | bluesky/store.c:361-369 | Counting an operation on a barrier keeps the balance. |
| `StoreBarrier.EndKeeps` | bluesky/store.c:371-381 | Attaching it, directly or by a notifier, keeps the balance. |
| `StoreBarrier.SubmitBarrierKeeps` | bluesky/store.c:340-347 | Submitting a barrier completes it at once exactly when it waits for nothing. |
| `StoreBarrier.StepKeeps` | bluesky/store.c:193-397 | Every step of every thread keeps the balance. |
| `StoreBarrier.BarrierExact` | bluesky/store.c:193-397 | At every point of every run a submitted barrier is complete if and only if everything given to it is over; then every operation ever given to it, directly or through a notifier, has completed, and it has been marked complete once; the pending count is the number of operations submitted and not complete. |
| `StoreBarrier.CompletedOnce` | bluesky/store.c:231-306 | A barrier is marked complete at one step of a run only, and stays complete. |
| `StoreBarrier.LateNotifierUnbalances` | bluesky/store.c:388-394 | In any such state, a notifier added to an operation that already released its barrier releases it again: the count falls behind by one. |
| `StoreBarrier.ProperExact` | bluesky/store.c:193-397 | A step that is proper keeps every barrier right: once submitted, complete if and only if everything given to it is over. From any step that is not, some steps lead to a barrier that is wrong. |
| `StoreBarrier.LateNotifierBreaks` | bluesky/store.c:388-394 | A notifier added to an operation that already released its barrier can make that barrier wrong, whatever the state. |
| `StoreBarrier.LateAttachBreaks` | bluesky/store.c:371-381 | So can attaching such an operation to another barrier. |
| `StoreBarrier.AttachCompleteBreaks` | bluesky/store.c:361-369 | Adding an operation to a complete barrier makes it wrong at once. |
| `StoreBarrier.LateNotifierCompletesEarly` | bluesky/store.c:193-209 | A run from the start in which a late notifier completes a barrier while one of its operations is still running. |
| `Eviction.StepKeeps` | bluesky/log.c:193-279 | Every step keeps: the lock count is the number of queue entries, a queued item has its data, data not in memory can be fetched, and what is recorded below the watermark is in the cloud; only the end of a flush pass needs a condition. |
| `Eviction.NeverTheOnlyCopy` | bluesky/file.c:328-336 | At every point of every run, with journal files deleted when they are below the watermark and nothing is mapped from them: an item may be dropped only if it can be fetched, fetching what was dropped succeeds, the log thread and the flush have the data of the item they write in memory, no mapped data is in a deleted file, and what the journal or the cloud has it was given. |
| `Eviction.GivenFromMemory` | bluesky/cloudlog.c:440-441 | An item comes to be given to the journal or the cloud only by the log thread or the flush writing it, with its data in memory. |
| `Eviction.MappedExact` | bluesky/log.c:269-275 | Data is mapped from the journal exactly from when the log thread has written it there or it was loaded from there until it is dropped; an item is being uploaded exactly from when the flush writes it until the upload completes. |
| `Eviction.FlushCanEnd` | bluesky/cache.c:149-232 | A flush pass that has begun can always end, and end as it should; then everything journaled before it began is in the cloud and the next pass may begin. |
| `Eviction.SubmittedHeld` | bluesky/log.c:326-334 | Over any steps whatever, an item that is submitted is not dropped before that sync has finished. |
| `Eviction.JournaledAgain` | bluesky/log.c:326-334 | Data whose journal file is gone and that was loaded from the cloud is journaled again by the next sync. |
| `Eviction.EndFlushExact` | bluesky/cache.c:202-229 | When a flush pass is about to end, no continuation loses an item if and only if no item recorded before the pass began has its sync unfinished and is not in the cloud. |
| `Eviction.DoomedLost` | bluesky/cache.c:360-397 | An item that only a file below the watermark has can be lost, whatever the state: once its sync has finished and all data mapped from the file has been dropped, the file is deleted. |
| `Eviction.UnfinishedItemLost` | bluesky/cache.c:373-397 | Such a run from the start: the sync finishes after the pass, the data is dropped, the file is deleted, and the item is nowhere. |
| `Eviction.FlagWithoutCopy` | bluesky/log.c:328-332 | A submitted item has a location flag set and no copy but the one in memory, so the flag alone would not allow dropping it. |
| `InodeCodec.SerializeEntries` | bluesky/serialize.c:131-154 | The loop writes cookie, inode number and terminated name of every entry, then a zero cookie. |
| `InodeCodec.DeserializeEntries` | bluesky/serialize.c:228-252 | The loop reads entries up to the zero cookie. |
| `InodeCodec.EntriesRead` | bluesky/serialize.c:131-252 | Directory entries read back as written, whatever follows them. |
| `InodeCodec.InodeRoundTrip` | bluesky/serialize.c:92-268 | Every attribute and the contents load as stored if and only if the file has no holes and no dirty blocks; otherwise exactly those blocks come back as references to nothing. |
| `InodeCodec.OtherInumRefused` | bluesky/serialize.c:192-193 | An inode is refused under any other inode number. |
| `Cleaner.NeedsMergingExact` | bluesky/cleaner.c:216-226 | Exactly the cleaner's segments newer than the last seen need merging, if and only if that number is not negative; with the initial -1 none of them does. |
| `Cleaner.FirstCheckpointSkipped` | bluesky/cleaner.c:319-365 | Starting from -1 no link of a checkpoint is followed. |
| `Cleaner.Proxy.MergeInode` | bluesky/cleaner.c:251-317 | The items and the list of inodes to sync become what taking over the cleaner's version of the inode makes of them; an inode that is gone changes nothing. |
| `Cleaner.Proxy.MergeSection` | bluesky/cleaner.c:347-358 | They become what taking over every newer inode of the section, in order, makes of them. |
| `Cleaner.Proxy.Merge` | bluesky/cleaner.c:319-365 | A newer complete checkpoint raises the sequence seen and everything newer under it is taken over; anything else changes nothing; in every cloud in which ids name one piece of data and the links of the newer inodes lead to copies of what they name, each item that read back still does, as the same data, and one not uploaded yet stays where it is or reads back now. |
| `Cleaner.CheckpointTaken` | bluesky/cleaner.c:319-365 | Merging a checkpoint moves items only, and only to where the links of newer inodes under newer sections have their ids; no block that such an inode has under the same id is left behind. |
| `Cleaner.CheckpointSynced` | bluesky/cleaner.c:251-365 | Exactly those inodes are handed to be synced that are still there and that a newer section has a newer version of. |
| `Cleaner.BlocksMoved` | bluesky/cleaner.c:286-304 | Of one file, exactly the items move that are clean blocks whose id the cleaner has in the same place, each to where the cleaner has the last such block. |
| `Cleaner.ContentsKept` | bluesky/cleaner.c:286-304 | For each item: if it read back from its location before a merge it does afterwards, as the same data; if not, it stays where it is or reads back now. |
| `Cleaner.NextVersionMoved` | bluesky/serialize.c:277-287 | After a merge, the next version of a file links every block that a newer inode has under the same id at a copy of the cleaner's. |

## Left out

- Fetching from the cloud: partial segment downloads, prefetch ranges and memory mapping are input and output and are not modelled.
- Recovery from a crash with some of a checkpoint's segments uploaded: publication is one step here, because start-up needs the checkpoint in the last segment.
- The location an item gets during replay: replay records a different offset convention from the writer's, so only what records hold, and which links resolve, is claimed.
- RecoverySafety.AckedSurvives: speaks of inode records; the blocks a record links to are in `ReplayLinks`, because they come back only under the condition of `LinkSurvives`.
- Reference counts and memory of cloud log items, the cache statistics counters and the least-recently-used lists: bookkeeping that no result here depends on.
- Generated XDR code, the other NFS procedures, READDIRPLUS, store backends, benchmarks, profiling and debugging: input and output or foreign libraries.
- The superblock codec: one fixed header that no code path uses to start up.
- The option that switches encryption off, and the range selection for whole-object reads: the model follows the default path.
- Update in place for recovery, eviction and the store: these three are transition systems over values, so that every interleaving of threads is a run; the objects and locks of the program are not modelled there.
- Directory.DirInode.PickCookie: does not model the distribution of random cookies; a parameter supplies the draws and one of them is free, because the loop of the program ends only with probability one.
- InodeCodec.InodeRoundTrip: the decoder answers None where the program would read past the end of malformed data, because the program does not check bounds.
- CloudLog.Log.Serialize: locations are unbounded numbers; what is read back needs them to fit 32 bits, which `SettledStored` asks for.
- Cleaner.Proxy.Merge: takes the newest checkpoint of the cleaner's log as a parameter and files without holes, because a hole that was reloaded is a null reference the program would follow.
- StoreBarrier.BarrierExact: counting down and testing the notifier count is one step with taking the operation's lock.
