# lsmrs, modelled and proved in Dafny

lsmrs is a small LSM-tree key-value store: writes go to a write-ahead log and a
memtable, a full memtable is flushed to an immutable sorted table file, lookups
read the memtable and then the tables from newest to oldest, and a background
thread merges runs of tables. There is no manifest: after a crash, the list of
tables is rebuilt from file names alone.

The proofs are on two levels.

**The step machine** (`Store*.dfy`, over `Tables.dfy`). A table is a strictly sorted
sequence of keys with values or tombstones, a directory is a map from spans to
tables. Every effect on disk or on shared memory is one step: the log append, the
memtable insert, the rename that publishes a table, storing the sequence number,
pushing onto the list, clearing the memtable, truncating the log; picking a run,
the compactor's snapshot, its merge, its rename, the list swap, each single unlink;
each table a reader probes in its snapshot; the crash; each file that recovery
removes or opens. A run is any interleaving of these steps. The main theorem,
`StoreRefinement.StoreIsAMap`, says that every run shows an observer only what one
plain map could show, where a crash may keep or lose the operation that had not
returned and nothing else.

**The bytes.** The table file, its bloom filter, hash and sparse index, the log
frames, the file names and both directions of the RESP2 framing are modelled byte by
byte, with writer and reader proved against each other.

**Joined.** `Disk.dfy` holds the directory and the log. Its methods are the only
effects on them, and each records every image it passes through: what a crash at
that moment would leave, also in the middle of a write. `StoreImages.dfy` says what
each step of the machine does to the bytes, and `Moves(crc, p, q, seen)` that the
machine gets from `p` to `q` through exactly the images recorded in between, in that
order, while an observer sees `seen`. Every method of the classes in `TableSet.dfy`,
`TableSetOpen.dfy` and `Db.dfy` that changes the disk is proved to be such a move, so
its effects happen in the machine's order; and there is one history of the plain map
such that every image a move passes recovers to the map after exactly the events seen
when it was passed, with the operation in flight if and only if its whole frame had
reached the log (`StoreImages.EveryImageRecovers`, `StoreImages.BytesAreAMap` for any
interleaved run from an empty directory). So `Database.Get` returns what
the plain map holds although it reads through bloom filters and block scans, every
image left by `Database.Put` opens to the map before or after it, and `Db.Open` gives
back the map of every image that recovers to one.

| module | what it models |
|---|---|
| Bytes, Bits, Decimal | integer fields, key order, decimal text |
| Tables | lookups over lists of sorted tables, what a merge must produce, which files survive recovery |
| Store, StoreInvariant, StoreRecovery, StoreRefinement, StoreProperties, StoreRuns | the step machine, its invariant, the refinement, consequences over whole runs |
| Merge, PickRun | the k-way merge and the choice of a run |
| Hash, Bloom | the 64-bit hash and the filter |
| TableFile, TableRead, TableGet, TableRecords | writing, opening, searching and iterating over a table file |
| Wal, TornTail | log frames and replay; what becomes of appends after a torn frame |
| Names | file names of spans |
| Disk, StoreImages | the files, the images a crash could leave of them, and what each step does to them |
| TableSet, TableSetOpen, Db, Server | the table set, opening it, the database, the DEL command |
| Resp, RespLines, Replies | commands and replies on the wire, inline commands, refused headers |
| Protocol | the Redis serialization protocol, version 2, read independently of the printers |

Two promises are not kept by the code in every case, and the model follows the code:

- The comment above `pick_run` promises the oldest run that is long enough. The code
  cuts the tables greedily, and keeps the promise for all tables exactly when
  `min_run` is at most 2 or the size ratio is at most 1
  (`PickRun.PromiseKeptExactly`); the defaults are 4 and 1.5.
- A log is reopened for appending with the torn bytes of an interrupted append still
  in it. Everything appended later is replayed, whatever it is, exactly when there
  are no such bytes (`TornTail.ReplaysAllExactly`). With at least four of them,
  nothing appended is replayed until the file has grown to where the torn frame would
  have ended (`TornTail.AppendsAfterTornTailAreLost`). From then on, with at least
  eight, the whole log is a checksum error, unless the
  checksums happen to agree (`TornTail.GrownPastTornTail`), and `Db.Open` refuses it.

## Model

| member | source | states |
|---|---|---|
| StoreRefinement.StoreIsAMap | src/db.rs:26-126 | Every run from an empty directory, under any interleaving of writer, readers and compactor and any number of crashes and interrupted recoveries, shows only events that one plain map explains, and ends in a state standing for that map. |
| StoreRefinement.RunRefines | src/db.rs:26-126 | The same from any state that stands for a map. |
| StoreRefinement.StepRefines | src/db.rs:26-126 | Each single step of the store is a step, or no step, of the plain map, and keeps the correspondence. |
| StoreRefinement.InitSim | src/sstable.rs:43-97 | An empty directory stands for the empty map. |
| StoreRefinement.CrashRefines | src/db.rs:40-52 | After a crash at any point the log and the directory stand for the map with exactly the operations that had reached the log. |
| StoreRefinement.CrashView | src/db.rs:40-52 | In every running state, including one whose published table the compactor has already merged, replaying the log over the tables recovery would open gives, for every key, what the running store answers, plus the operation that has been logged but not yet inserted. |
| StoreRefinement.RecoverRefines | src/sstable.rs:66-96 | Every single deletion and opening done by recovery leaves the map unchanged. |
| StoreRefinement.CompactRefines | src/sstable.rs:232-268 | No step of a compaction changes the map, whatever the writer and readers are in the middle of. |
| StoreRefinement.BaseAnswers | src/sstable.rs:243-265 | The tables a crash would recover in the middle of a compaction answer every key like the list in memory, for a published merge and for an all-tombstone merge whose inputs are partly unlinked. |
| StoreRefinement.ReadRefines | src/sstable.rs:129-131 | A reader that walks an old snapshot while the list is swapped under it returns the map's value. |
| StoreRefinement.ReaderProbe | src/sstable.rs:304-310 | Skipping a table that lacks the key leaves the newest record of the tables still to be probed, and a table that has the key decides. |
| StoreRefinement.WriteRefines | src/db.rs:85-126 | Every step of put, delete and flush keeps the correspondence; the operation takes effect once, when it returns, whether or not the flush succeeded. |
| StoreRecovery.StepInv | src/sstable.rs:99-131 | The invariant on directory, list, log, memtable and counters is kept by every step. |
| StoreRecovery.NextSeqIsMax | src/sstable.rs:68-72 | The recovered sequence number is above every file in the directory and, unless there is none, one more than some file's last. |
| StoreRecovery.NextSeqOfStack | src/sstable.rs:68-89 | It depends only on the tables that survive: superseded files never change it. |
| StoreRecovery.OpenDoneList | src/sstable.rs:74-96 | When opening completes, the list is exactly the tables of the directory's surviving spans, in order. |
| StoreRecovery.RemoveSupersededInv | src/sstable.rs:78-85 | Deleting one superseded file keeps the list that opening the directory produces, so a crash between two deletions is harmless. |
| StoreInvariant.SwapAnswers | src/sstable.rs:256-259 | Splicing a merge into the list, even after flushes have appended to it since the snapshot, changes no lookup. |
| StoreInvariant.MergePublishStack | src/sstable.rs:249-254 | Publishing a merge's output makes recovery choose the output in place of its inputs. |
| StoreInvariant.UnlinkOldest | src/sstable.rs:263-265 | Unlinking the oldest file of a directory removes just that table from what recovery would produce. |
| StoreInvariant.UnlinkInv | src/sstable.rs:263-265 | The invariant is kept after every single unlink of a merged input. |
| StoreInvariant.MergeEmptyInv | src/sstable.rs:243-248 | A merge that keeps nothing, and so publishes nothing, keeps the invariant. |
| StoreInvariant.PushInv | src/sstable.rs:111-112 | Appending a flushed table keeps the invariant during any stage of a compaction. |
| StoreProperties.CrashThenReopen | src/db.rs:40-52 | A crash at any point of any operation, flush or compaction, followed by recovery that may itself crash any number of times: once the store is up, every key reads as in the map with everything that had reached the log and nothing else. |
| StoreProperties.ReturnedWriteSurvives | src/db.rs:105-126 | Once a put or delete has returned, every later get of its key gives what it wrote, through any flushes, compactions and crashes, until the key is written again. |
| StoreProperties.LiveSpansOrdered | src/sstable.rs:66-96 | In every reachable running state the live spans are disjoint, increasing and below the next sequence number, every live table is on disk, and every other file is part of what recovery expects. |
| StoreProperties.ChecksHold | src/sstable.rs:232-259 | In every run the two assertions of `compact` hold, the splice is in range of the list at that time, only a run at the oldest table can come out empty, and opening always has a next step. |
| StoreProperties.RecoveryIsRepeatable | src/sstable.rs:66-96 | Any two completed recoveries of one directory, however often interrupted by crashes, produce the same list and the same next sequence number. |
| StoreProperties.CompactionsBounded | src/db.rs:63-72 | In any run with crashes, completed compactions times `min_run - 1` are at most the tables a recovery would produce at the start, plus what the compaction in progress has already saved, plus the flushes. |
| StoreProperties.CompactionsPaidFor | src/db.rs:63-72 | From a stopped store: completed compactions times `min_run - 1` are at most initial tables plus flushes. |
| StoreImages.BytesAreAMap | src/db.rs:26-126 | Of every run from an empty directory, in any interleaving and with crashes, there is one history of a plain map, and every image passed on disk, also in the middle of a file or frame being written, recovers to that history's map after exactly the events seen when it was passed, with the operation in flight if and only if its whole frame had reached the log. |
| StoreImages.NextImageRecovers | src/db.rs:26-126 | Whatever act, a torn append included, adds an image to a run that has shown some events: the image recovers to the map after all of these and the event of that act. |
| StoreImages.EveryImageRecovers | src/db.rs:26-126 | The same from any image of a state that stands for a map; over a torn log tail it holds of any reads, compactions, crashes and recoveries, until an operation is called. |
| StoreImages.CrashMidway | src/db.rs:105-126 | Every image passed between the call of an operation and its return recovers to the map with or without it. |
| StoreImages.QuietImages | src/db.rs:63-72 | Without writes, every image passed in any compactions, openings, reads and further crashes recovers to the same map, and every get returns its value, also over a torn log tail. |
| StoreImages.StepImage | src/sstable.rs:99-268 | Each step's effect on the bytes takes an image of the machine's state to an image of the next. |
| StoreImages.CrashRecovers | src/db.rs:40-52 | An image of any state, with the log possibly torn, recovers to the map with the operation in flight if and only if its whole frame has reached the log. |
| StoreRuns.CallThenReturn | src/db.rs:105-126 | A run in which an observer sees just a call and its return ends in the map with exactly that operation's effect. |
| StoreRuns.QuietlySame | src/db.rs:63-72 | A run in which an observer sees nothing ends in the same map. |
| Tables.SpliceKeepsAnswers | src/sstable.rs:232-268 | For every table list, every key and every adjacent run, replacing the run by its merge leaves the lookup unchanged; tombstones may be dropped when the run starts at the oldest table. |
| Tables.TombstoneSuffix | src/sstable.rs:243-265 | If a run merges to nothing, what is left after any number of its oldest tables are gone holds no value for any key. |
| Tables.MergeNonEmpty | src/sstable.rs:243-248 | A merge that keeps tombstones keeps something. |
| Tables.StackUnique | src/sstable.rs:74-89 | A directory determines the ordered list of its surviving tables. |
| Tables.DropKeepsStack | src/sstable.rs:78-85 | Removing any superseded file leaves that list unchanged. |
| Tables.SortedUnique | src/sstable.rs:157-184 | Two sorted tables that answer every lookup alike are equal. |
| Merge.MergeTables | src/sstable.rs:516-554 | Merging any number of sorted streams ends, with a strictly sorted list in which every key has the value of the newest stream that holds it, less exactly the keys whose newest record is a tombstone when they are dropped. |
| Merge.MergeUnique | src/sstable.rs:516-554 | That determines the merge. |
| Merge.Smallest | src/sstable.rs:527-537 | The selected key is the head of some stream and no head is smaller; there is none exactly when all streams are used up. |
| Merge.TakeKey | src/sstable.rs:539-548 | Exactly the streams whose head is the key advance, each by one, and the record taken is the newest of them. |
| PickRun.Pick | src/sstable.rs:273-297 | The two nested loops compute the first greedy run that is long enough. |
| PickRun.PickedRun | src/sstable.rs:273-297 | A picked run is in range, has at least `min_run` tables, no table in it is larger than any other times the ratio, and the next table could not be added. |
| PickRun.FirstLongEnough | src/sstable.rs:280-296 | The tables fall into greedy runs, each comparable and not extendable by the next table; the picked run is the first of them that is long enough, and if nothing is picked all of them are too short. |
| PickRun.NothingPicked | src/sstable.rs:273-297 | If nothing is picked, every window of comparable tables has at most `2 * min_run - 3`. |
| PickRun.BoundIsTight | src/sstable.rs:273-297 | For every `min_run` of at least 3, every ratio above 1 and any lower bound on all table sizes, that bound is attained by a window that is long enough and is not picked. |
| PickRun.PromiseKeptExactly | src/sstable.rs:270-297 | A run starting no later than any comparable window of at least `min_run` tables is picked, for all table sizes, if and only if `min_run` is at most 2 or the ratio is at most 1. |
| PickRun.PairsAreNeverMissed | src/sstable.rs:273-297 | With `min_run` 2 the picked run starts at the oldest two neighbours of comparable size, and nothing is picked only if there are none. |
| PickRun.FitsIsComparable | src/sstable.rs:284-288 | Comparing the largest with the smallest times the ratio decides whether all pairs are comparable. |
| Hash.ComputeHash64 | src/hash.rs:4-11 | The loop computes the hash that the lemmas below are about. |
| Hash.RoundInjective | src/hash.rs:6-9 | One round is injective in the hash and in the byte. |
| Hash.MixBijective | src/hash.rs:13-20 | The finalizer can be undone on every 64-bit word, from both sides. |
| Hash.OneByteNeverCollides | src/hash.rs:4-20 | Keys of equal length that differ in exactly one byte have different hashes. |
| Bloom.BloomFilter.constructor | src/bloom.rs:8-20 | A new filter is empty, with its bit count a multiple of 64. |
| Bloom.BloomFilter.InsertHash | src/bloom.rs:42-47 | Setting the probed bits in place gives the filter value that the lemmas below are about. |
| Bloom.WordsForEnough | src/bloom.rs:9-11 | The words hold at least the requested number of bits, at least 64, and, above that, less than one word more; the request is the product unless it saturates. |
| Bloom.ProbeFits | src/bloom.rs:56-60 | Probe `i` is the hash's low 32 bits plus `i` times its high 32 bits with the lowest set, modulo the bit count; for up to 30 probes the sum is below 2^37, so the 64-bit arithmetic cannot wrap. |
| Bloom.SetBitExact | src/bloom.rs:45-45 | Setting a bit changes that bit and no other, in any word. |
| Bloom.InsertExact | src/bloom.rs:42-47 | After an insert exactly the probed bits have been added. |
| Bloom.InsertKeeps | src/bloom.rs:42-54 | Inserting a hash never loses another. |
| Bloom.NoFalseNegatives | src/bloom.rs:42-54 | After any sequence of inserts every inserted hash is contained. |
| Bloom.FreshContainsNothing | src/bloom.rs:8-20 | An empty filter contains no hash. |
| Bloom.TestIsContains | src/bloom.rs:49-54 | Testing probe by probe, which on a malformed filter may panic or answer before it would, says on a well-formed one whether all probed bits are set. |
| TableFile.WriteTable | src/sstable.rs:133-230 | Writing piece by piece with hand-kept offsets gives the file layout and the table that the lemmas below are about. |
| TableFile.WriteData | src/sstable.rs:149-184 | The loop's data, sparse index, filter, first and last key and final offset are those of the layout: a block starts where the previous one has reached 4096 bytes. |
| TableFile.WriteIndex | src/sstable.rs:186-196 | The accumulated filter offset is where the index bytes really end. |
| TableFile.WriteFilter | src/sstable.rs:198-203 | The filter block is the bit count, the probe count and the words, little-endian. |
| TableFile.SmallRecord | src/sstable.rs:168-177 | The very bytes of a record, for keys and values below 256 bytes: little-endian lengths, and 0 or 1 for a value or a tombstone. |
| TableRead.OpenTable | src/sstable.rs:324-396 | Opening, with its error cases for short files, magic, version and truncated blocks, computes the parse that the lemmas below are about. |
| TableRead.OpenAfterWrite | src/sstable.rs:133-230 | Opening the bytes of a written table gives back the same sparse index, first and last key, filter and offsets. |
| TableRead.RefusedFiles | src/sstable.rs:327-347 | A file shorter than the trailer, with a foreign magic, or of another version is refused, each with its own error. |
| TableRead.EndOfFile | src/sstable.rs:213-214 | Every written file ends in the magic, version 1 and a zero byte. |
| TableRead.ParseFilterBack | src/sstable.rs:358-370 | A filter is read back from its bytes unchanged. |
| TableRead.ReadIndexBack | src/sstable.rs:372-383 | The sparse index is read back from its bytes unchanged. |
| TableRead.ReadPrefixedBack | src/sstable.rs:570-577 | A length-prefixed byte string is read back. |
| TableGet.Get | src/sstable.rs:407-461 | Range check, filter, binary search and block scan with early exit compute the lookup that the lemmas below are about. |
| TableGet.GetIsFind | src/sstable.rs:407-461 | On any file of sorted entries, a lookup over the raw bytes returns exactly the value, tombstone or absence that a linear search of the entries gives. |
| TableGet.PartitionSplits | src/sstable.rs:418-423 | The binary search splits a sorted index: every key before the split is at most the key, every one from it on is greater. |
| TableGet.OnlyInBlock | src/sstable.rs:416-429 | A key that is present is in the block the index selects. |
| TableGet.LoadBlockBack | src/sstable.rs:425-432 | The byte range between two index offsets holds exactly that block's entries. |
| TableGet.ScanBlockBack | src/sstable.rs:435-458 | The block scan, stopping at the first larger key, finds what a linear search finds. |
| TableGet.RefusedOperation | src/sstable.rs:447-455 | A record of the key whose operation byte is neither 0 nor 1 is an error. |
| TableGet.FilterForKnowsKeys | src/sstable.rs:162-162 | The filter built while writing contains the hash of every key written. |
| TableRecords.Records.NextRecord | src/sstable.rs:473-506 | One call of the iterator takes the next record or the next block, and moves its block, buffer and cursor accordingly. |
| TableRecords.NextBack | src/sstable.rs:473-506 | On a written file, with i entries already yielded, the next call yields entry i, or the end after the last. |
| TableRecords.ReadAllBack | src/sstable.rs:464-514 | Iterating over a written file yields exactly the written entries, in order, across all blocks. |
| Wal.WalFile.CreateBody | src/wal.rs:58-77 | A frame is length, checksum and payload. |
| Wal.SmallFrame | src/wal.rs:58-77 | The very bytes of a frame, for keys and values of together at most 242 bytes. |
| Wal.WalFile.Append | src/wal.rs:79-95 | An append adds one frame to the end of the file. |
| Wal.WalFile.Truncate | src/wal.rs:123-127 | Truncation empties the file. |
| Wal.WalFile.Read | src/wal.rs:128-169 | The reading loop computes the replay that the lemmas below are about. |
| Wal.ParseRecordBack | src/wal.rs:97-121 | Every operation is read back from its payload. |
| Wal.RefusedOperation | src/wal.rs:113-114 | An operation byte other than 0 and 1 is an error. |
| Wal.CutAnywhere | src/wal.rs:128-169 | For any operations and any cut of their frames, replay returns exactly the operations whose frames lie wholly before the cut. |
| Wal.AppendIsReplayed | src/wal.rs:79-95 | After an append, replay returns what it returned before and the new operation. |
| Wal.CorruptFrameIsAnError | src/wal.rs:157-163 | A complete frame whose checksum does not match makes the whole replay an error, whatever precedes and follows it. |
| Wal.TooShortEndsTheLog | src/wal.rs:141-143 | A length that does not cover the checksum ends the replay with what precedes it. |
| TornTail.ReplaysAllExactly | src/wal.rs:48-56 | After a torn append that left the first `kept` bytes of its frame, everything appended later is replayed, whatever it is, if and only if `kept` is 0; for every log, torn operation and checksum function. |
| TornTail.AppendsAfterTornTailAreLost | src/wal.rs:128-169 | Once the torn frame's length is in the file, nothing appended is replayed until the file has grown to where that frame would have ended. |
| TornTail.GrownPastTornTail | src/wal.rs:157-163 | Once the file has grown that far, with the torn frame's checksum in it, the whole log is a checksum error, unless the mixed payload happens to have the torn payload's checksum. |
| TornTail.OneByteLosesADelete | src/wal.rs:128-169 | A concrete loss: after one stray byte, a delete of the empty key is not replayed, for any checksum function. |
| TornTail.OneDeleteSpoilsTheLog | src/wal.rs:157-163 | A concrete unreadable log: a delete cut one byte short, followed by a whole one, is an error that takes every earlier operation with it. |
| Decimal.ParseBack | src/resp.rs:90-99 | A printed length is parsed back. |
| Decimal.ParseLeading | src/resp.rs:90-99 | A nonempty prefix of a printed number is a number that is no larger, and not zero unless the number is. |
| Names.ParseSpanBack | src/sstable.rs:556-560 | The span a file name was made for is the span parsed from it. |
| Names.ParseSpanOnly | src/sstable.rs:556-560 | A span is parsed only from the prefix and two 64-bit numbers with a dash between them. |
| Names.NamesDiffer | src/sstable.rs:143-146 | Different names are different files: of different spans, published or temporary, or not following the scheme. |
| Resp.Client.Print | src/bin/ycsb.rs:91-98 | The client's buffer holds the command's RESP2 form, whatever it held before. |
| Resp.Reader.Line | src/resp.rs:79-88 | A line is consumed up to and including its newline, trailing line ends are dropped, and only the end of the stream is no line. |
| Resp.Reader.NextCommand | src/resp.rs:38-77 | Reading a command consumes the stream as the parse that the lemmas below are about; these fix it for printed and cut commands, inline commands and refused headers. |
| Resp.ReadCommandBack | src/resp.rs:38-77 | Any printed command within the limits, with any bytes in its arguments, is read back, and reading stops exactly behind it. |
| Resp.ReadStreamBack | src/resp.rs:38-77 | Any sequence of printed commands is read back as the same sequence, with nothing left over. |
| Resp.CutCommandIsAnError | src/resp.rs:38-77 | Every proper nonempty prefix of a printed command with arguments is an error, never another command. |
| RespLines.InlineIsItsWords | src/resp.rs:43-52 | A line that does not start with a star is a command by its words: for any words, any white space between and around them and either line end, exactly these words are read, up to the line end. |
| RespLines.WordsBack | src/resp.rs:46-51 | Words joined by white space are split into exactly these words. |
| RespLines.WordsKeepAll | src/resp.rs:46-51 | The words of any line are nonempty and free of white space, and together are the line without its white space. |
| RespLines.RefusedBulkHeader | src/resp.rs:60-67 | An argument header without a dollar sign, over 64 MiB, or negative is an error, for every number. |
| RespLines.ArgumentCount | src/resp.rs:54-56 | More than 1024 arguments are an error, and a negative number of them means an empty command. |
| Protocol.CommandIsAnArray | src/bin/ycsb.rs:91-98 | To any reader of the protocol, a command as the client prints it is the array of its parts as bulk strings. |
| Replies.Writer.WriteReply | src/resp.rs:16-35 | Writing a nested reply appends its printed form, which `Protocol.PrintedIsRead` fixes, to what has been written. |
| Protocol.PrintedIsRead | src/resp.rs:16-35 | For every nested reply whose texts hold no line end, a reader of the protocol, defined apart from the printer, reads back that very reply and stops behind it. |
| Replies.ReplyReader.Line | src/bin/ycsb.rs:125-137 | The client's line is consumed up to its newline, without its carriage returns. |
| Replies.ReplyReader.ConsumeReply | src/bin/ycsb.rs:103-123 | Consuming a reply moves the reader as the function that the lemmas below are about. |
| Replies.ConsumeBack | src/bin/ycsb.rs:103-137 | For every nested reply whose texts contain no newline, exactly its bytes are consumed and the rest of the stream is untouched. |
| Replies.ErrorReplyExactly | src/resp.rs:19-19 | An error reply is consumed exactly if and only if its text contains no newline. |
| TableSet.SSTableSet.WriteTableFile | src/sstable.rs:143-230 | The disk passes through exactly these images: the temporary file empty, with every prefix of the table's bytes, and then the whole table under its final name; if it gets too large, only temporary ones. |
| TableSet.InOrder | src/sstable.rs:108-108 | Iterating over the memtable gives its entries sorted, tombstones included, and no others. |
| TableSet.PublishMoves | src/sstable.rs:147-217 | Writing a temporary file piece by piece and renaming it is two steps of the machine and moments inside them, the rename coming after the last byte. |
| TableSet.SSTableSet.Write | src/sstable.rs:99-114 | Flushing moves the machine through exactly the images left on disk and appends exactly the memtable's table to the list; it fails if and only if that table's file gets too large, leaving only a temporary file; an empty memtable changes nothing. |
| TableSet.SSTableSet.Compact | src/sstable.rs:232-268 | Exactly tables `start .. start + count` are replaced by their merge, under the run's span, and exactly their files are unlinked; it fails if and only if the merge's file gets too large, and then the list is unchanged. The machine moves through exactly the images left on disk, publish before swap before unlinks, while an observer sees nothing. |
| TableSet.SSTableSet.MergeRun | src/sstable.rs:232-254 | Its first half publishes the merge of exactly that run, or nothing if the merge kept nothing; it fails if and only if the file gets too large. |
| TableSet.SSTableSet.CompactAroundFlush | src/sstable.rs:99-114 | With a flush between a compaction's snapshot and its splice, the list ends up as the compaction's, with the flushed table appended; the two threads together move the machine through exactly the images left on disk. |
| TableSet.SSTableSet.Finish | src/sstable.rs:256-265 | The run is taken off the list, its replacement put in its place, and exactly its files are unlinked; the machine moves through exactly the images left on disk. |
| TableSet.SSTableSet.Unlinks | src/sstable.rs:261-265 | The inputs are unlinked one at a time in the order of the list, oldest first: each image on disk is the machine's after one more of them. |
| TableSet.SSTableSet.CompactAll | src/db.rs:65-70 | Round by round, exactly the run that is picked is compacted, until nothing is left to pick, or a picked run's merge is too large for a file. |
| TableSet.SSTableSet.Get | src/sstable.rs:299-312 | The newest table with a record of the key decides: the answer over real files is the lookup over their entries. |
| TableSetOpen.ListDirectory | src/sstable.rs:44-66 | In any order of reading, an `.sst` name off the scheme is an error and the only one; otherwise temporary files are removed, and the spans are listed sorted, each once. Of a stopped store each removal is a step of recovery. |
| TableSetOpen.Open | src/sstable.rs:43-97 | Opening any directory computes the deletions, the list and the sequence number that the lemmas below are about; opening what a crash left succeeds and moves the machine through its recovery, image by image. |
| TableSetOpen.OpenKeepsMaximal | src/sstable.rs:74-89 | Opening keeps exactly the files whose span lies in no other span, deletes the rest, and lists them in span order. |
| Db.Database.Flush | src/db.rs:85-96 | A flush moves the machine through exactly the images left on disk, table first, log last; it leaves exactly one more table and an empty memtable and log, or fails, if and only if the table's file gets too large, and leaves both as they were. |
| Db.Database.Apply | src/db.rs:105-126 | The map changes by exactly the operation. Up to the size limit, the answer is success with one more frame and one more entry; beyond it, a flush of all, with size 0, an error if and only if the table's file gets too large. With an intact log every image on the way, a half-written frame included, recovers to the map before or after. |
| Db.OneAnswer | src/db.rs:105-126 | That determines the answer, and memtable, size, tables, sequence number, directory and log after it. |
| Db.Database.Record | src/db.rs:106-108 | The frame is appended and the entry inserted, and the size grows by the key's and the value's length. |
| Db.Database.FlushIfFull | src/db.rs:109-112 | A flush happens if and only if the size exceeds the limit, and resets it unless it fails. |
| Db.Database.Put | src/db.rs:105-115 | The map afterwards is the map before with the key set; answer and what is held are those of `Db.Database.Apply`. |
| Db.Database.Delete | src/db.rs:117-126 | The map afterwards is the map before without the key; answer and what is held are those of `Db.Database.Apply`. |
| Db.Database.Get | src/db.rs:98-103 | A get returns the map's value. |
| Db.Database.CompactorRound | src/db.rs:63-72 | A round compacts exactly the runs that are picked, one after another, until nothing is left to pick or a merge is too large; map and memtable are unchanged, and every image on the way recovers to the same map. |
| Db.Open | src/db.rs:26-83 | An unreadable log is its error, and nothing is touched, in particular after a corrupt frame or once written past a torn one; otherwise the memtable is the replayed log, and the directory decides as in `TableSetOpen.Open`. Any image that recovers to a map opens to that map, and every image on the way recovers to it again. |
| Db.UnreadableLogs | src/wal.rs:157-163 | A log with a corrupt whole frame, or written to past the end of a torn one, is a checksum error. |
| Db.CrashBetween | src/db.rs:26-83 | What a crash leaves of a database between operations recovers to its map. |
| Db.ProtectedRecovers | src/db.rs:105-126 | In particular of every database whose log is intact. |
| Db.TornLogIsReplayed | src/wal.rs:128-169 | A log whose last append was cut short replays to the operations before it. |
| Server.Del | src/server.rs:140-156 | DEL over any argument list, with duplicates and with flushes on the way, makes exactly one delete for each distinct listed key that is present, in order, and returns their number; exactly the listed keys are gone. An error, possible only when a flush's table gets too large, or a crash leaves a prefix of them removed. |

## Left out

- Interleavings are in the step machine and in the moves through images; the methods of the classes run one after another. That readers, writer and compactor may interleave rests on the machine's steps, not on the bodies of the classes, except that `TableSet.SSTableSet.CompactAroundFlush` runs a whole flush inside a compaction.
- Threads, channels, the locks themselves and shutdown: the database lock is the condition that no reader is active while a write is.
- TableSet.SSTableSet.Compact: the merge takes the decoded streams of its inputs, read by the record iterator, instead of peeking at them lazily, because of tables the store wrote no record fails to decode; an input that became unreadable in the meantime is not modelled there.
- CRC-32 is a parameter, any function to 32-bit numbers.
- Bloom.BloomFilter.constructor: the number of probes is a parameter, not the rounded float formula. A key count times bits per key that saturates asks for more memory than there is; the overflow of its bit count is not modelled.
- The size ratio is a real number, not a double.
- False-positive rates.
- Input and output errors, except that a table file can be too large to write. A `remove_file` that fails during compaction and a log append that fails without a crash are not modelled.
- File operations take effect in the order they are issued: unsynced unlinks reordered by power loss, and logs opened without `sync`, are not modelled. The fields of `Disk.FileSystem` are changed by its own methods only.
- StoreImages.BytesAreAMap: its runs go on from whole frames, because the log of a store that writes after a torn append is no longer the machine's. Every torn image on the way is shown to recover, and `StoreImages.EveryImageRecovers`, `StoreImages.QuietImages` and `Db.Open` go on from it through reads, compactions, crashes and recoveries; writes after that are not protected until the next flush, as `TornTail.ReplaysAllExactly` shows and `Db.Database.Protected` says.
- The only `.sst` names that follow the scheme are those the store writes; one with fewer or more leading zeros would be a second name for the same span. Other files in the directory are ignored.
- Panics of the code on malformed files (a probe outside a filter, a block whose end lies before its start, a log record shorter than its fields) are one error value, `Panic`.
- Counters do not overflow: sequence numbers, sizes and offsets are unbounded, and keys, values and frames fit their length fields.
- The memtable's size count restarts at 0 on open, as in the code, so it bounds nothing about a replayed memtable and no such bound is stated.
- The two bytes after a bulk argument are skipped without looking at them, as in the code.
- `scan`, the REPL, sockets, the other commands, the benchmark's key generators and its reports.
