# Verified model of pyvrs

pyvrs gives Python access to VRS recordings: files of timestamped records grouped in streams. This
project models the parts of the binding layer that hold algorithms of their own, in Dafny 4.11, and
proves what they promise over every input, every run or every interleaving.

`dafny verify dfyconfig.toml` checks the whole project.

## What is modelled

| files | part of the system |
|---|---|
| `FilterModel`, `FilterProofs`, `FilterContents`, `AsyncImageFilter` | The image filter: images are handed out in record order, answered in any order, written in order |
| `ReaderModel`, `ReaderProofs`, `ReaderContents`, `BlockList`, `Cursor`, `VRSReader` | The record reader: lazy configuration index, last-configuration memory, shared record cache, read cursor |
| `AsyncReader` | Asynchronous reads: a job queue and a worker thread sharing the reader with the main thread |
| `NormalizeCache` | The stream player's cache of image normalization options, which the reader's reads feed |
| `FilteredIndex` | Filtered readers: selection by type, stream and time, and lookup in the selection |
| `WriterModel`, `WriterProofs`, `VRSWriter` | The writer's flush protocol: timestamp gate, file creation, tags, stream checks |
| `MetadataKeys`, `MetadataProofs`, `MetadataTwoPass` | Disambiguation of metadata keys |
| `AudioBuffer`, `Strides` | 24-bit audio presented as 32-bit samples; row-major strides |

Code that updates objects is modelled by classes and loops whose methods are proved against functions on
values; the theorems are then about those functions over whole runs. Each has an independent reference:
a ledger of answers with no reorder buffer, a backward scan for the nearest configuration, a caller's own
read history, a two-pass definition of the keys, a full scan of the index. What an operation writes, returns, queues
or refuses is also stated field by field from its inputs, apart from the functions its method is proved against.

## Findings

Five promises do not hold on every input. The code is kept as it is; for each, a lemma shows the failure and
another says exactly when the promise holds.

- Re-reading a data record after a later configuration record of its stream was read directly decodes it
  under that later configuration (`RereadAfterLaterConfig`, `WrongConfigurationHappens`).
- A configuration read only in part, because a limit on trailing blocks applied to configuration records, is not
  read again when the limit is lifted: data go on being decoded under that part of it
  (`RereadAfterLimitChange`, `TruncatedConfigurationStays`). The exact condition for this and the case above is on
  the caller's own history: a configured data record is what a fresh reader would read if and only if the history is
  neither stale for its configuration nor has read another extent of it, or there is no block to decode
  (`ReadProperlyIff`). With the limit on configurations left alone, never reading configurations directly is enough
  (`RandomAccess`), and so is never going back (`ForwardScan`).
- A record whose first two content blocks are of one kind (two images, say) loses the first of them
  (`ReturnedBlocks`); over repeated passes the exact condition is `KeepsLastPassIff`.
- Metadata keys raise `KeyError` when a name, at its first occurrence, equals a key already produced
  (`RaisesOnBracketedName`, `KeyErrorIff`). The two-pass meaning holds in every order of the input exactly
  when the bracketed keys are distinct from each other and from all names (`AlwaysTwoPassIff`); where they are
  distinct from each other, some order raises exactly when one of them is also a name (`RaisesInSomeOrderIff`);
  where they are not, a key with more brackets can do so too (`RaisesOnDeeperBracket`).
- When creating the output file fails, the writer remembers it as created: later flushes raise nothing and
  write nothing, whatever is retried (`FailedCreationIsPermanent`), and a record due is never written by a flush
  (`FlushLosesRecord`). The exact condition is on the caller's own calls: a flush that raises
  nothing has written all that was due if and only if the very first flush created the file, or nothing was due
  (`FlushCompleteIff`).

Presenting a widened 24-bit block a second time finds samples only if the frame stride was already four
bytes a channel; otherwise Python gets plain bytes (`SecondConversionIff`).

## Assumptions about code outside the repository

- The VRS library's file reader parses a record's blocks in order, stops when a callback says so, and
  decodes a stream's records under the last configuration record it read for that stream, as far as that record
  was read. This is for enabled
  streams; `pyvrs/reader.py:188` enables all of them on opening, and reading a stream without a player is not modelled.
- The file's index is sorted by timestamp where a statement says so, and has fewer than 2^32 records.
- The native writer, asked to write up to a time, hands over exactly the queued records due, sorted by
  timestamp, if its file was created, and otherwise does nothing. Its batch order is a parameter; a batch that
  keeps the promise always exists (`BatchExists`).
- A moved-from `std::vector` is empty.
- The job queue is first-in first-out; the interpreter lock makes each read atomic.
- An audio spec counts channels in one byte, and its frames have room for their samples.

## Model

| member | source | states |
|---|---|---|
| AsyncImageFilter.ImageFilter.constructor | csrc/filter/OssAsyncImageFilter.cpp:103-156 | A filter has handed out no image and, after the pre-roll, written nothing, and agrees with an empty ledger; it has records to go through only if its file was created |
| AsyncImageFilter.ImageFilter.ReadRecord | csrc/filter/OssAsyncImageFilter.cpp:61-94 | A record of a filtered stream with an image of known size becomes pending with all its chunks and its last such image chosen; any other is written at once, with its own stream, time, type, version and chunks |
| AsyncImageFilter.ImageFilter.GetNextImage | csrc/filter/OssAsyncImageFilter.cpp:165-181 | Hands out the first image from the cursor on, with its index and bytes; every record passed over is written unchanged and nothing else is; the image is then answerable, and the ledger agreement is kept |
| AsyncImageFilter.ImageFilter.WriteProcessedImage | csrc/filter/OssAsyncImageFilter.cpp:183-194 | Succeeds exactly for an index handed out and not answered; the record is then in the log with the supplied bytes at the image and all else its own, or, if an earlier image is unanswered, in the map so; a refusal changes nothing |
| AsyncImageFilter.ImageFilter.DiscardRecord | csrc/filter/OssAsyncImageFilter.cpp:196-205 | Same acceptance rule; nothing of the record is in the map or the log, and the ledger agreement is kept |
| AsyncImageFilter.ImageFilter.ProcessPendingRecords | csrc/filter/OssAsyncImageFilter.cpp:207-223 | The in-place loop drains answered records from the front of the map and reports the last timestamp |
| AsyncImageFilter.ImageFilter.CloseFile | csrc/filter/OssAsyncImageFilter.cpp:225-236 | Refuses exactly while some image handed out has no answer; otherwise closes once |
| FilterModel.LastImage | csrc/filter/OssAsyncImageFilter.cpp:70-79 | The chunk to filter is the last image of known size |
| FilterContents.ImageRecords | csrc/filter/OssAsyncImageFilter.cpp:70-79 | A record is handed out exactly when its stream is filtered and some image in it has a known size; the chunk is the last such |
| FilterContents.OutputCarries | csrc/filter/OssAsyncImageFilter.h:100-103 | The record written for an image is the input's in every field and chunk, except that the image's chunk holds the supplied bytes |
| FilterContents.ImagesInLog | csrc/filter/OssAsyncImageFilter.cpp:207-223 | In every state of a run, the image records written are exactly those of processed images that no unanswered one precedes, each with the bytes supplied for it |
| FilterContents.CopiesInLog | csrc/filter/OssAsyncImageFilter.cpp:89-90 | The other records written are exactly those below the cursor with no image to filter, unchanged, once each and in order |
| FilterContents.AnsweredIsDelivered | csrc/filter/OssAsyncImageFilter.cpp:183-194 | An image answered is in the log or waits in the map, with the bytes supplied |
| FilterContents.DiscardedIsGone | csrc/filter/OssAsyncImageFilter.cpp:196-205 | A discarded image is neither in the map nor ever in the log |
| FilterContents.FetchHandsOut | csrc/filter/OssAsyncImageFilter.cpp:165-181 | What fetching copies, hands out and leaves pending, field by field |
| FilterProofs.EntryEmitsOutput | csrc/filter/OssAsyncImageFilter.h:100-103 | A pending entry given its buffer is written as the record the ledger calls for |
| FilterProofs.DrainReachesFrontier | csrc/filter/OssAsyncImageFilter.cpp:207-223 | From any mid-drain state the loop stops exactly at the first unanswered image, with everything before it written |
| FilterProofs.FetchRefines | csrc/filter/OssAsyncImageFilter.cpp:165-181 | Fetching keeps the agreement between map, log and ledger |
| FilterProofs.WriteRefines | csrc/filter/OssAsyncImageFilter.cpp:183-194 | Answering with an image keeps it |
| FilterProofs.DiscardRefines | csrc/filter/OssAsyncImageFilter.cpp:196-205 | Discarding keeps it |
| FilterProofs.StateAfter | csrc/filter/OssAsyncImageFilter.cpp:165-223 | After any run, the state is what the ledger of answers alone determines |
| FilterProofs.AcceptedExactlyOnce | csrc/filter/OssAsyncImageFilter.cpp:183-205 | An answer is accepted exactly when its index was handed out and has none yet |
| FilterProofs.SameAnswersSameOutputs | csrc/filter/OssAsyncImageFilter.cpp:165-223 | Two reachable states with the same answers and everything handed out have written the same image records |
| FilterProofs.Confluence | csrc/filter/OssAsyncImageFilter.cpp:165-223 | Two runs that fetch everything and give the same answers write the same image records, whatever the order |
| FilterProofs.CompleteRunWritesEverything | csrc/filter/OssAsyncImageFilter.cpp:165-223 | With every image answered, all processed images are written in record order and nothing is pending |
| FilterProofs.ExactPrefix | csrc/filter/OssAsyncImageFilter.cpp:183-223 | Between calls the map is empty or starts at the first unanswered image, and exactly the processed images before it are written, in strictly increasing order |
| FilterProofs.Conservation | csrc/filter/OssAsyncImageFilter.cpp:165-223 | Images handed out number those written plus those discarded plus those pending |
| FilterProofs.ClosableWhenAllAnswered | csrc/filter/OssAsyncImageFilter.cpp:225-229 | The pending check passes exactly when every image handed out is answered |
| FilterProofs.WatermarkNeverOvertakes | csrc/filter/OssAsyncImageFilter.cpp:207-223 | On a time-sorted file, nothing older than a reported timestamp is ever created, reported, pending or unread |
| FilterProofs.WatermarkIsTight | csrc/filter/OssAsyncImageFilter.cpp:209-222 | Between calls the last timestamp reported is that of the last image record written |
| BlockList.PassReplaces | csrc/reader/VRSReader.cpp:283-299 | A pass over a replaceable layout discards the previous pass's blocks and keeps its own |
| BlockList.PassesKeepLast | csrc/reader/VRSReader.cpp:288-299 | After any number of passes over such a layout, the list is the last pass's blocks |
| BlockList.FirstBlockLost | csrc/reader/VRSReader.cpp:296-299 | Blocks of one kind at positions 0 and 1: every pass loses the first |
| BlockList.StaleBlocksKept | csrc/reader/VRSReader.cpp:296-299 | First block further in than there are blocks of the kind: a second pass keeps the stale ones |
| BlockList.KeepsLastPassIff | csrc/reader/VRSReader.cpp:283-299 | The list is always the last pass's blocks if and only if the layout is replaceable |
| ReaderModel.LowerBound | csrc/reader/VRSReader.cpp:842 | The position splits the list into entries below the index and the rest |
| ReaderModel.NearestConfig | csrc/reader/VRSReader.cpp:833-848 | The reference: the greatest earlier configuration record of the stream, if any |
| ReaderProofs.BuiltIsConfigList | csrc/reader/VRSReader.cpp:835-841 | The lazily built map lists each stream's configuration records in file order |
| ReaderProofs.SearchFindsNearest | csrc/reader/VRSReader.cpp:842-848 | The entry before the lower bound is what a backward scan finds |
| ReaderProofs.ConfigurationStep | csrc/reader/VRSReader.cpp:833-863 | An automatic read loads the nearest configuration, as far as limits allow, unless it is the one remembered, and leaves the cache empty |
| ReaderProofs.ReadUnderCursorStep | csrc/reader/VRSReader.cpp:811-831 | A read returns its record decoded under its stream's current configuration, starting from an empty cache and leaving it empty |
| ReaderProofs.MemoryStep | csrc/reader/VRSReader.cpp:850-859 | The remembered configuration, the decoder's, how much of it was read, and the metadata captured stay functions of the caller's read history and the limits it was made under |
| ReaderProofs.StaleMeans | csrc/reader/VRSReader.cpp:850-859 | A history is stale for a configuration exactly when it is remembered but not the one last read |
| ReaderProofs.EveryRead | csrc/reader/VRSReader.cpp:811-863 | After any history of reads, each under its own limits, a read is a function of the file, the record, the limits now in force and that history |
| ReaderProofs.DecodedProperlyIff | csrc/reader/VRSReader.cpp:842-859 | A data record with an earlier configuration is decoded under its nearest one, read as far as it would be now, if and only if the history is not stale for it and has not read another extent of it |
| ReaderProofs.ReadProperlyIff | csrc/reader/VRSReader.cpp:811-863 | Such a record equals what a fresh reader returns under the same limits if and only if that holds, or it has no blocks |
| ReaderProofs.DecodedSameIff | csrc/utils/PyRecord.cpp:60-67 | A record decoded under two configurations, or two extents of one, is the same only if it has no blocks |
| ReaderProofs.UnconfiguredProperlyIff | csrc/reader/VRSReader.cpp:845-848 | A data record with no earlier configuration is decoded under none if and only if no configuration of its stream was read, directly or automatically |
| ReaderProofs.RandomAccess | csrc/reader/VRSReader.cpp:811-863 | In any order of reads without direct configuration reads, each configured data record is what the file and the limits now determine, if the limit on the stream's configurations has not changed |
| ReaderProofs.ForwardScan | csrc/reader/VRSReader.cpp:821-863 | Going forward, the same holds even with configurations read directly |
| ReaderProofs.RereadAfterLaterConfig | csrc/reader/VRSReader.cpp:850-859 | Data, a later configuration read directly, the same data: the second read is decoded under the later one |
| ReaderProofs.WrongConfigurationHappens | csrc/reader/VRSReader.cpp:850-859 | A three-record file on which that returns a wrong record |
| ReaderProofs.RereadAfterLimitChange | csrc/reader/VRSReader.cpp:850-859 | Data, a change of limits, the same data: the second read is decoded under as much of the configuration as the first had read |
| ReaderProofs.TruncatedConfigurationStays | csrc/reader/VRSReader.cpp:264-276 | A two-record file on which that differs from what a fresh reader reads |
| ReaderProofs.CapturedWithDecoder | csrc/reader/VRSReader.cpp:225-234 | Normalization is configured from the last metadata block read of the configuration that the stream's decoder holds, if any was read; from none while it holds none |
| ReaderProofs.ReturnedBlocks | csrc/reader/VRSReader.cpp:225-304 | A returned record holds all its blocks of a kind that were read, or all but the first when two start the record |
| ReaderProofs.OwnBlocksOnly | csrc/utils/PyRecord.cpp:60-67 | Every block of a returned record is its own |
| ReaderProofs.TrailingLimit | csrc/reader/VRSReader.cpp:264-276 | With a trailing limit, that many blocks are read, at least one and at most all |
| ReaderContents.StopsAfterIff | csrc/reader/VRSReader.cpp:264-304 | How many blocks are read: every one before the last is metadata or of known size and within the limit, and the last is not, unless it ends the record; a block of unknown size is itself read |
| ReaderContents.DecodedHolds | csrc/utils/PyRecord.cpp:60-67 | A record returned has the file's index, type, time, stream and version, and in each of its five lists exactly the blocks of that kind read, in order, but for a first one lost |
| ReaderProofs.SkipFromSets | csrc/reader/VRSReader.cpp:873-899 | Setting limits touches exactly the device type and record types meant; 0 removes them |
| ReaderProofs.UnknownSizeStops | csrc/reader/VRSReader.cpp:300-304 | No block after one of unknown size is read |
| VRSReader.Reader.constructor | csrc/reader/VRSReader.cpp:90-102 | A reader just opened remembers no configuration for any stream |
| VRSReader.Reader.LibraryReadRecord | csrc/reader/VRSReader.cpp:173-262 | The effect of reading a record on cache, decoder and captured metadata; the decoder keeps how far a configuration was read |
| VRSReader.Reader.ReadRecordBlocks | csrc/reader/VRSReader.cpp:225-304 | The callbacks, block by block until one says to stop, and no further and no less far; what the cache then holds and what was captured |
| VRSReader.Reader.BuildIndex | csrc/reader/VRSReader.cpp:835-841 | The scan loop builds the per-stream lists |
| VRSReader.BinaryLowerBound | csrc/reader/VRSReader.cpp:842 | Binary search on a sorted list finds the lower bound |
| VRSReader.Reader.ReadConfigurationRecord | csrc/reader/VRSReader.cpp:833-863 | The in-place automatic read, on any reachable state |
| VRSReader.Reader.LoadConfigurationRecord | csrc/reader/VRSReader.cpp:850-862 | Its second half: the record found is read and remembered unless it already is |
| VRSReader.Reader.OptionsForImage | csrc/reader/VRSReader.cpp:360-374 | After any reads, an image's normalization options come from the configuration its stream's decoder holds, as far as that was read, whatever was cached |
| VRSReader.Reader.ReadNextRecordInternal | csrc/reader/VRSReader.cpp:811-831 | Reads the record under the cursor, advances it, and keeps every reader invariant |
| VRSReader.Reader.ReadRecord | csrc/reader/VRSReader.cpp:779-785 | Fails without effect exactly out of range, negative arguments included; otherwise returns the record asked for, with its own fields and every block read of it, decoded as its history determines, wherever the cursor was |
| VRSReader.Reader.GotoRecord | csrc/reader/VRSReader.cpp:704-726 | Moves only the cursor; out of range, to the end |
| VRSReader.Reader.ReadNextRecord | csrc/reader/VRSReader.cpp:728-777 | Refused exactly for an unknown stream or device, a stream not enabled or a bad type, without effect; otherwise returns the first record from the cursor on that answers the request, or stops at the end |
| VRSReader.Reader.SkipTrailingBlocks | csrc/reader/VRSReader.cpp:873-899 | The loop sets or removes the limit for one record type or for all, and no other |
| Cursor.NextMatch | csrc/reader/VRSReader.cpp:752-754 | The first record at or after the cursor that matches |
| Cursor.NextReadServes | csrc/reader/VRSReader.cpp:728-777 | Refusals and the record found, in terms of the streams, device and record type asked for |
| Cursor.DrainIsOrdered | csrc/reader/VRSReader.cpp:728-777 | Repeating a request returns matching enabled records only, in strictly increasing order |
| Cursor.DrainIsComplete | csrc/reader/VRSReader.cpp:728-777 | Unless it is refused, it misses none at or after the cursor |
| Cursor.DrainedIs | csrc/reader/VRSReader.cpp:728-777 | So it returns exactly the records from the cursor on that answer it |
| Cursor.MixedIncreases | csrc/reader/VRSReader.cpp:728-777 | Any mix of overloads, refused requests and newly enabled streams returns strictly increasing indices |
| Cursor.RepeatedDrains | csrc/reader/VRSReader.cpp:728-777 | A mix that repeats one request returns what draining returns, as far as it goes |
| AsyncReader.StepKeeps | csrc/reader/AsyncVRSReader.cpp:40-71 | Every step of either thread keeps queue order, reader invariants and what resolved futures carry |
| AsyncReader.AsyncAfter | csrc/reader/AsyncVRSReader.cpp:40-71 | Every interleaving reaches only such states |
| AsyncReader.PerformedInSendOrder | csrc/reader/AsyncVRSReader.cpp:40-71 | Futures are resolved in the order sent, each at most once, none skipped |
| AsyncReader.EveryAwaitServed | csrc/reader/AsyncVRSReader.cpp:40-71 | While the worker is not told to end, as many of its turns as jobs are queued resolve every future ever created |
| AsyncReader.AwaitedIsResolved | csrc/reader/AsyncVRSReader.cpp:40-71 | From an idle worker, an await and one turn resolve one more future, for the record awaited |
| AsyncReader.MainCalls | csrc/reader/VRSReader.cpp:704-785 | What the main thread's other calls do to reader and limits; none touches the jobs |
| AsyncReader.AwaitedProperlyIff | csrc/reader/AsyncVRSReader.cpp:68-71 | A future carries what a synchronous read on a fresh reader returns under the limits in force when its job was performed, if and only if the reads before it were current for it or it has no blocks |
| AsyncReader.AwaitedEqualsSynchronous | csrc/reader/AsyncVRSReader.cpp:68-71 | That is so if the limit on configuration blocks did not change, and no configuration was read directly before it or no read before it went back |
| AsyncReader.AwaitOrderDecides | csrc/reader/AsyncVRSReader.cpp:40-71 | In any interleaving of the calls Python can make, the order of awaits and the limits their jobs were performed under decide each future's record, with the exact condition |
| AsyncReader.AwaitsAreSynchronous | csrc/reader/AsyncVRSReader.cpp:40-71 | In any such interleaving, if no limit is set on configuration records and awaits are of no configurations or go forward, every awaited configured record is what a synchronous read on a fresh reader returns |
| AsyncReader.LimitsWhenPerformed | csrc/reader/AsyncVRSReader.cpp:59-71 | The limits a future is read under are those set by the calls before its job was performed |
| AsyncReader.EveryInterleaving | csrc/reader/AsyncVRSReader.cpp:40-71 | After every interleaving of the two threads' steps, changes of limits and inherited synchronous calls included, futures with a safe history carry what a fresh reader reads |
| AsyncReader.NothingAfterCleanup | csrc/reader/AsyncVRSReader.cpp:48-66 | Once the worker is told to end, no more futures are resolved, in any continuation |
| AsyncReader.AsyncReadHandler.constructor | csrc/reader/AsyncVRSReader.h:98-119 | A new handler has an empty queue and nothing resolved |
| AsyncReader.AsyncReadHandler.AwaitRecord | csrc/reader/AsyncVRSReader.cpp:40-46 | For a valid index, the job of a new future is appended to those sent and to the queue; otherwise nothing is |
| AsyncReader.AsyncReadHandler.WaitForJob | csrc/reader/AsyncVRSReader.cpp:55-58 | Takes the oldest job off the queue exactly when it has none and is not told to end |
| AsyncReader.AsyncReadHandler.PerformJob | csrc/reader/AsyncVRSReader.cpp:59-71 | Reads through the shared reader and resolves the future of the job in hand with the record it asks for, or drops the job if told to end |
| AsyncReader.AsyncReadHandler.Cleanup | csrc/reader/AsyncVRSReader.cpp:48-53 | Tells the worker to end |
| AsyncReader.AsyncReadHandler.SkipTrailingBlocks | csrc/reader/AsyncVRSReader.cpp:191 | Limits may be changed while jobs are queued; every invariant is kept |
| AsyncReader.AsyncReadHandler.EnableStream | csrc/reader/AsyncVRSReader.cpp:176 | So may streams be enabled |
| NormalizeCache.StreamPlayer.CaptureNormalizeOptionsConfig | csrc/reader/VRSReader.cpp:217-223 | A capture replaces the configuration and forgets the options computed from the old one |
| NormalizeCache.StreamPlayer.OptionsFor | csrc/reader/VRSReader.cpp:360-374 | The options used are those of the stream's most recent capture and of this pixel format, cached or not |
| FilteredIndex.RegenerateEnabledIndices | csrc/reader/VRSReader.cpp:901-938 | Refuses unknown streams; on a sorted file returns exactly the matching indices, strictly increasing |
| FilteredIndex.EarlyExitExactIff | csrc/reader/VRSReader.cpp:925-936 | The early exit loses nothing if and only if no record after the first late one is selected |
| FilteredIndex.EarlyExitOnSorted | csrc/reader/VRSReader.cpp:925-936 | On a file sorted by time it loses nothing |
| FilteredIndex.ScanIsExact | csrc/reader/VRSReader.cpp:925-936 | The scan selects by type, stream and inclusive time bounds, in order |
| FilteredIndex.Bisect | pyvrs/filter.py:357 | The insertion point after entries equal to the index |
| FilteredIndex.FilteredReader.constructor | pyvrs/filter.py:59-82 | The selection is complete exactly when nothing after the first late record is selected; the time range reported is that of its first and last record, hence its minimum and maximum on a sorted file, or zero when it is empty |
| FilteredIndex.Filtered | csrc/reader/VRSReader.cpp:917-923 | Filtering is refused exactly for streams not in the file; on a sorted file the selection is complete |
| FilteredIndex.FilteredReader.GetRecordIndexByTime | pyvrs/filter.py:333-357 | The position of a selected index, else of the last selected one before it, else 0 |
| FilteredIndex.FilteredReader.GetTimestampForIndex | pyvrs/filter.py:240-252 | The timestamp of the selected record, counted from the end when negative, or an error out of range either way |
| VRSWriter.ParseCreateRecordParams | pyvrs/writer.py:173-206 | Accepts exactly the format's own layouts in order with at most three arrays, ignores other arguments, and says which check failed |
| VRSWriter.EachArgumentCounts | pyvrs/writer.py:178-184 | Each argument counts among the layouts, the arrays or neither, in the order given |
| VRSWriter.Writer.AssertTimestamp | pyvrs/writer.py:95-97 | Lets a timestamp through exactly when no flush of the run that went through is after it |
| VRSWriter.Writer.FlushRecords | pyvrs/writer.py:99-114 | Refused exactly when a flush that went through is later, failing exactly when it is the first and the file cannot be created; the file stays sorted; one that raises nothing has written exactly the accepted records due if and only if the first flush created the file, or none was due |
| VRSWriter.Writer.SetTag | pyvrs/writer.py:75-78 | Refused exactly after a first flush; otherwise the name has that value, and the tags, the file's too, are those set before the first flush |
| VRSWriter.Writer.CreateRecord | pyvrs/writer.py:208-241 | Refused exactly for a timestamp before a flush that went through, for data with no configuration record accepted on the stream, or for arguments that do not match, in that order and without effect; otherwise the record is accepted and queued |
| WriterProofs.FileSorted | pyvrs/writer.py:95-114 | Over any run, flushes and streams, the whole file is sorted by timestamp |
| WriterProofs.NothingLostOrRepeated | pyvrs/writer.py:99-114 | Every accepted record is in the file or the queue, exactly once |
| WriterProofs.FlushedExactly | pyvrs/writer.py:99-114 | The file holds exactly the records accepted before the last flush with timestamps up to it |
| WriterProofs.FlushTakesAllDue | pyvrs/writer.py:99-114 | A flush that goes through on a created file leaves in it exactly what was accepted up to its timestamp |
| WriterProofs.DataFollowsConfiguration | pyvrs/writer.py:208-230 | Every data record accepted comes after a configuration record of its stream |
| WriterProofs.ConfiguredExactly | pyvrs/writer.py:208-217 | A stream counts as configured exactly when a configuration record of it was accepted |
| WriterProofs.HeaderHasAllTags | pyvrs/writer.py:75-78 | The created file has all the tags ever accepted |
| WriterProofs.TagsAre | pyvrs/writer.py:75-78 | They are the tags set before the first flush, the last value for each name |
| WriterProofs.TagStatusIff | pyvrs/writer.py:75-78 | Setting a tag is refused exactly after a first flush, and otherwise changes that tag only |
| WriterProofs.FailedCreationIsPermanent | pyvrs/writer.py:116-120 | After a failed creation, no continuation creates the file or writes a record |
| WriterProofs.CreatedExactly | pyvrs/writer.py:116-120 | The file exists if and only if the run's very first flush created it; the flag is set by any flush |
| WriterProofs.FlushCompleteIff | pyvrs/writer.py:99-120 | A flush that raises nothing has written exactly what was due if and only if the first flush created the file, or nothing was due |
| WriterProofs.FlushLosesRecord | pyvrs/writer.py:116-120 | A run in which a record due is not written and the flush raises nothing |
| WriterProofs.GateIsHistory | pyvrs/writer.py:95-97 | The remembered timestamp stands for all the flushes that went through |
| WriterProofs.FlushStatusIff | pyvrs/writer.py:95-120 | Which flushes are refused, fail or go through, from the caller's own calls |
| WriterProofs.CreateStatusIff | pyvrs/writer.py:208-241 | Which records are accepted, and why others are refused, from the caller's own calls |
| WriterProofs.AcceptedIs | pyvrs/writer.py:208-241 | The records accepted over a run are those its calls alone determine |
| WriterProofs.BatchExists | pyvrs/writer.py:114 | For any queue and time there is a batch as the native writer promises |
| MetadataKeys.UniqueStringForKey | pyvrs/utils.py:102-110 | Returns the first free bracketed key, within one try more than the dictionary has keys |
| MetadataKeys.FreeBrackets | pyvrs/utils.py:104-110 | The search ends because candidates grow: no more tries than keys at least as long |
| MetadataKeys.StringifyMetadataKeys | pyvrs/utils.py:113-143 | The loop over a mutable dictionary computes the one-pass result, or raises when it does |
| MetadataProofs.NothingLost | pyvrs/utils.py:113-143 | A pass that does not raise gives every entry a key of its own leading to its value, and no other keys |
| MetadataProofs.KeysShowNames | pyvrs/utils.py:102-143 | Each key is the bare name if the name occurs once, and otherwise the name, brackets, the type and as many brackets |
| MetadataProofs.KeyErrorIff | pyvrs/utils.py:126-129 | It raises if and only if some name, at its first occurrence, is already a key |
| MetadataTwoPass.OnePassIsTwoPass | pyvrs/utils.py:113-143 | With clear keys it does not raise, single-type names stay bare and the others become `name<type>` |
| MetadataTwoPass.PlainNamesAreClear | pyvrs/utils.py:113-117 | Names without an opening bracket make the keys clear |
| MetadataTwoPass.AlwaysTwoPassIff | pyvrs/utils.py:113-143 | The two-pass result comes out in every order of the input if and only if the keys are clear |
| MetadataTwoPass.RaisesInSomeOrderIff | pyvrs/utils.py:126-129 | Where no two bracketed keys coincide, some order of the input raises if and only if a bracketed key is also a name; that is enough in any case |
| MetadataTwoPass.RaisesOnDeeperBracket | pyvrs/utils.py:126-129 | Five entries of which no name is a first-level bracketed key, and which raise |
| MetadataTwoPass.BracketedNameBreaks | pyvrs/utils.py:126-129 | A name equal to another entry's bracketed key defeats the two-pass result in some order |
| MetadataTwoPass.SharedKeyLosesOne | pyvrs/utils.py:113-143 | Entries sharing a two-pass key would lose one of them |
| MetadataTwoPass.RaisesOnBracketedName | pyvrs/utils.py:126-129 | The smallest input that raises |
| AudioBuffer.WideningPreservesValues | csrc/utils/PyBuffer.cpp:321-363 | Every 32-bit word of the widened buffer equals the 24-bit sample at its frame and channel, sign and endianness included |
| AudioBuffer.WidenedTablePresents | csrc/utils/PyBuffer.cpp:366-438 | The widened buffer, read through the shape and strides reported, is the table of original samples |
| AudioBuffer.ContentBlockBuffer.ConvertContentBlockBuffer | csrc/utils/PyBuffer.cpp:293-438 | Samples are presented exactly when the size matches; read through the strides reported, the buffer holds every original sample at its frame and channel; it is widened once and the later endian swap never applies |
| AudioBuffer.ContentBlockBuffer.Widen | csrc/utils/PyBuffer.cpp:327-363 | The frame loop fills a new buffer of four bytes a sample with the widened frames |
| AudioBuffer.ContentBlockBuffer.WidenFrame | csrc/utils/PyBuffer.cpp:341-357 | The channel loop widens one frame and touches nothing before it |
| AudioBuffer.ContentBlockBuffer.Reconstruct | csrc/utils/PyBuffer.cpp:334-356 | The four bytes of a sample, read as a 32-bit word, are worth the 24-bit number in the three source bytes |
| AudioBuffer.SecondConversionIff | csrc/utils/PyBuffer.cpp:293-297 | A widened block passes the size check again if and only if frames were already four bytes a channel, or there are none |
| Strides.OffsetIsRank | csrc/utils/PyBuffer.cpp:652-663 | Strided offsets are the row-major position times the item size |
| Strides.OffsetsOrdered | csrc/utils/PyBuffer.cpp:652-666 | Offsets lie in the buffer on item boundaries, are distinct, and are ordered as the indices are |
| Strides.EveryItemReached | csrc/utils/PyBuffer.cpp:652-666 | Every item of the buffer is some index's |
| Strides.BinaryBuffer.ComputeStrides | csrc/utils/PyBuffer.cpp:652-663 | The loop from the last dimension back fills in the row-major strides |

## Left out

- Decoding of blocks and computing of normalization options are uninterpreted: a value records what it was computed from.
- Image conversions, codecs and the re-reading of missing video frames; the effect of repeated passes on the block list is modelled on its own.
- Failed reads, which leave partial blocks in the cache, and opening a reader or a filter a second time.
- The multi-file reader, which repeats these algorithms under another stream naming.
- Reading by stream and record number, seeking by time and the nearest-record searches: the search is in the VRS library.
- AsyncImageFilter.ImageFilter.ReadRecord: leaves out the record copier's `skipRecord_` and verbatim flags, which only the VRS library sets.
- AsyncImageFilter.ImageFilter.constructor: leaves out the pre-roll of configuration and state records when the file is created; the log starts after it.
- Layout edits and collected metadata of the filter, and closing the writer.
- Pending records of the filter are values replaced in the map, where the source updates the map entry in place.
- Streams of the writer are numbers and their configuration flags one set; native recordables, compression and the wait for a full queue are not modelled.
- VRSWriter.Writer.FlushRecords: the native writer's return code is not modelled, only whether the flush raises.
- NaN timestamps; timestamps are real numbers, and minus infinity is the absence of a flush.
- AsyncReader.AwaitedEqualsSynchronous: whether the worker gets its turns, whether jobs queued when it ends are ever resolved, and how shutdown waits, is not modelled. Awaiting by stream and record number is left out with the library's search.
- AsyncReader.EveryInterleaving: `MainRead`, `MainNext` and `Seek` are calls the C++ reader inherits; Python's asynchronous reader does not bind them, and `AwaitOrderDecides` is about runs without them.
- MetadataTwoPass.RaisesInSomeOrderIff: where two bracketed keys do coincide, a name equal to a key with more brackets may raise too; `KeyErrorIff` is exact for a given order.
- AudioBuffer.ContentBlockBuffer.ConvertContentBlockBuffer: covers the 24-bit formats only; images, other sample sizes and their endian swap are not modelled.
- FilteredIndex.FilteredReader.constructor: takes streams of the file; the refusal of others is `Filtered`'s.
- FilteredIndex.FilteredReader.GetRecordIndexByTime: starts from the index in the file; the stream assertion and the search by time before it are left out.
- Cursor.DrainIsComplete: the enabled streams stay the same while one request is repeated; the loop is the caller's, each step of it `VRSReader.Reader.ReadNextRecord`.
- Python wrappers, slices, pattern matching of stream names, printing and conversion to Python objects.
