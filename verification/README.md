# Fluvio core protocols, modelled in Dafny

A model of the parts of Fluvio where several operations have to agree with each other, and proofs of
what they keep. `dafny verify dfyconfig.toml` checks all of it.

| modules | what they model |
|---|---|
| `Bytes`, `Varint`, `Codec`, `CodecLaws`, `CodecVersions`, `VersionIntervals` | the wire format: fixed-width integers, varints, and the code the derive macros generate, as interpreters over type descriptions |
| `BatchFormat`, `BatchStream`, `Records`, `Iterators` | the batch layout of a segment file, reading it back under short reads and truncation, records in a batch |
| `OffsetIndex`, `IndexSpacing`, `SegmentLog`, `SegmentReads`, `SegmentRecovery` | the sparse offset index, a segment that grows log and index together, serving ranges of offsets, and opening a segment whose log was cut off |
| `SegmentList`, `Cleaner`, `Replica`, `Expiry`, `CheckpointWriter` | the closed segments of a replica, retention by size and age, the write path with its rollover, the high watermark checkpoint |
| `Multiplexer`, `ResponseLoss`, `StreamClose`, `Progress` | many callers over one connection, as a transition system |
| `FileWriters`, `ZeroCopy`, `FileShapes`, `FileMessages`, `MessageBytes` | file-slice encoding against plain encoding: hand-written encoders as lists of steps, their output and length prefixes, and the messages that have one |
| `KvStore` | the log-based key/value store |
| `PackageReleases`, `PackageId` | the package index |

Files are byte sequences, asynchronous code is a state machine whose steps interleave freely, and
everything outside the modelled code (the kernel's read sizes, whether an append succeeds, hash map
iteration order, URL and semantic version parsers, time) is a parameter that the results hold for all
values of. Integers are unbounded except where the code casts, masks or wraps; there the width is
written out.

## Where the code does less than it seems to promise

Each of these is stated as an if-and-only-if, or with a lemma that exhibits the failing case.

- Varints take an `i64`, but the shift and mask are those of 32 bits: exactly the 32-bit integers
  survive (`Varint.VarintRoundTripIff`), and for some others the encoding loop does not end
  (`Varint.EndlessExists`).
- A string of 32768 bytes or more, a vector of 2^31 or more items and an enum variant whose tag
  occurs before it do not come back (`CodecLaws.DecodeEncodeIff`); decoded over old content, an empty
  string keeps that content and a vector is appended to it (`CodecLaws.DecodeEncode`, through `Merge`).
- The size that the log writer asserts leaves out the schema id, so a batch that has one cannot be
  appended (`BatchFormat.WriteSizeIffNoSchema`).
- An index entry at position 0 looks empty, and a full index cannot be reopened
  (`OffsetIndex.ReopenIff`).
- A maximum offset inside a batch withholds the whole batch (`SegmentReads.OffsetServedIff`); one
  before the batch of the start makes the subtraction of positions underflow
  (`SegmentReads.UnderflowIff`, `SegmentReads.UnderflowHappens`).
- A record batch without records ends the record iterator early (`Iterators.CompleteIff`).
- Expiry removes segments wherever they stand, so a replica stays valid exactly if no segment with
  offsets has expired behind one that stays (`Expiry.Expire`, `Expiry.UnexpiredContiguousIff`). A
  lookup in a gap is answered with the segment before it (`SegmentList.FindContainsIff`,
  `Expiry.ExpiryLeavesGap`).
- A segment whose log was cut off comes back with its whole batches, but index entries for lost
  batches stay: it is valid exactly if there are none (`SegmentRecovery.OpenForWrite`,
  `SegmentRecovery.StaleEntryMisleads`).
- Index files count towards a segment's size, so a retention pass can go below the limit less one
  segment by the index files it removes (`Cleaner.PassKeeps`, `Replica.OversizedSegmentCutsDeep`).
- The checkpoint writer compares with the offset it loaded, never with the one it wrote, so going back
  to the loaded offset is not stored (`CheckpointWriter.RecoversLatestIff`,
  `CheckpointWriter.RevertIsLost`).
- Once the dispatcher has stopped, a waiting call wakes exactly if the close reached it while it
  listened or a frame came (`Multiplexer.CloseWakesIff`). A call that registered but did not listen,
  and one that starts later, wait for their timeout in every continuation
  (`Multiplexer.UnheardStranded`, `Multiplexer.LateCallStranded`, `Multiplexer.StrandedStays`), and a
  stream opened later never yields (`Multiplexer.SilentStays`).
- Closing an entry clears a slot that is already filled, so a response that has come is lost exactly
  if the close visits the entry before the caller takes it (`ResponseLoss.ResponseLostIff`,
  `ResponseLoss.ResponseLost`).
- A frame for another caller's full queue blocks the steps of a call that need the lock
  (`Multiplexer.ForeignFrameBlocksIff`).
- The length prefix of a file-encoded produce request counts the smart modules, which are not written
  (`FileMessages.ProduceRequestPrefixWrong`).
- A failed delete has already changed the cache (`KvStore.RunTracks`).
- A registry URL that ends in a doubled slash changes when printed and parsed
  (`PackageId.RoundTripIff`, `PackageId.DoubledSlashLost`, `PackageId.DoubledSlashParses`).

## Model

| member | source | states |
|---|---|---|
| Bytes.IntRoundTrip | crates/fluvio-protocol/src/core/decoder.rs:158-292 | decoding an encoded integer of any width and sign gives it back and leaves exactly the bytes that follow |
| Bytes.BigEndianRoundTrip | crates/fluvio-protocol/src/core/encoder.rs:176-357 | the bytes of a number determine it |
| Bytes.BigEndianByte | crates/fluvio-protocol/src/core/encoder.rs:176-357 | the k-th byte from the left is the k-th digit of the number to the base 256 from the left |
| Varint.VarintRoundTripIff | crates/fluvio-protocol/src/core/varint.rs:13-68 | an i64 survives encode and decode, with any bytes following, if and only if it is a 32-bit integer |
| Varint.VarintLarge | crates/fluvio-protocol/src/core/varint.rs:43-68 | whenever the encoding loop ends on a wider integer, its reader gets another number |
| Varint.EndlessIsUnreachable | crates/fluvio-protocol/src/core/varint.rs:49-59 | when the loop does not end, no byte sequence decodes to that integer |
| Varint.EndlessExists | crates/fluvio-protocol/src/core/varint.rs:43-58 | an i64 for which the loop does not end |
| Varint.MixedIsLost | crates/fluvio-protocol/src/core/varint.rs:47-58 | mixing shifted high bits into a number by exclusive or is never undone by the reader |
| Varint.VarintEnds | crates/fluvio-protocol/src/core/varint.rs:13-41 | for every input: a varint ends at the first byte without the continuation bit and leaves what follows, fails if that is not one of the first ten, and is cut off if there is none |
| Varint.VariantEncode | crates/fluvio-protocol/src/core/varint.rs:43-68 | into a buffer with any room: the groups that the round trip is proved for, or an error if and only if they do not fit or do not end |
| Varint.VariantSize | crates/fluvio-protocol/src/core/varint.rs:70-80 | for every i64, the size loop ends within a number of rounds if and only if the encoding loop does, and counts its bytes |
| Codec.Decode | crates/fluvio-protocol-derive/src/de.rs:79-127 | decoding any bytes into a well-typed value gives a well-typed value or an error |
| CodecLaws.DecodeEncode | crates/fluvio-protocol-derive/src/ser.rs:102-148 | for every nested description, value and version, decoding the encoding restores the live fields, keeps the prior content of the others and consumes exactly the encoding, whatever follows |
| CodecLaws.DecodeEncodeFields | crates/fluvio-protocol-derive/src/de.rs:79-127 | the same for struct fields, which are version-tested except varints |
| CodecLaws.DecodeEncodeVariant | crates/fluvio-protocol-derive/src/ser.rs:292-376 | the tag leads back to the variant that was encoded, whose fields are restored without version tests |
| CodecLaws.WriteSizeIsLength | crates/fluvio-protocol-derive/src/ser.rs:213-251 | write_size equals the encoded length for every description, value and version |
| CodecLaws.VariantSizeIsLength | crates/fluvio-protocol-derive/src/ser.rs:378-478 | the same for enum variants |
| CodecLaws.DecodeEncodeIff | crates/fluvio-protocol/src/core/decoder.rs:39-75 | into a default value, decoding restores exactly the values whose strings, vectors, varints and tags fit their length fields |
| CodecLaws.Misfit | crates/fluvio-protocol/src/core/encoder.rs:49-77 | a value that does not fit is never restored, even when decoding succeeds |
| CodecLaws.MisfitStr | crates/fluvio-protocol/src/core/decoder.rs:353-373 | a string whose length wraps the i16 length field is not restored |
| CodecLaws.MisfitVariant | crates/fluvio-protocol-derive/src/de.rs:179-282 | a variant whose fields do not fit is not restored |
| CodecLaws.MergeIsValue | crates/fluvio-protocol-derive/src/ast/prop.rs:51-92 | when every field is live at the version, what decoding gives is the encoded value itself |
| CodecLaws.FullRoundTrip | crates/fluvio-protocol/src/core/decoder.rs:19-26 | decode_from of an encoding is the value, when every field is live and the value fits |
| CodecLaws.StructFieldAfterDecode | crates/fluvio-protocol-derive/src/ast/prop.rs:51-92 | a live field takes the encoded value |
| CodecLaws.DeadFieldKept | crates/fluvio-protocol-derive/src/ast/prop.rs:51-92 | a field that is dead at the version keeps its prior value, whatever that holds |
| CodecLaws.VecGoesBehind | crates/fluvio-protocol/src/core/decoder.rs:39-75 | a vector decoded onto old content keeps all of it, in front of the items that were encoded |
| VersionIntervals.TestedField | crates/fluvio-protocol-derive/src/ast/prop.rs:51-92 | a struct field is written, measured and read as its type is from min_version up to and including max_version; at every other version it takes no bytes and decoding touches neither it nor the input |
| VersionIntervals.UntestedField | crates/fluvio-protocol-derive/src/ser.rs:102-148 | varint fields of structs and all fields of enum variants are written and read at every version; varint has no effect in a variant |
| VersionIntervals.WrittenInside | crates/fluvio-protocol-derive/src/ast/prop.rs:51-92 | the bytes of a struct are those of the fields before, the field itself between its bounds, and those of the fields behind |
| VersionIntervals.RestoredInside | crates/fluvio-protocol-derive/src/de.rs:79-127 | decoding an encoded struct restores a field at every version between its bounds, a varint at every version |
| VersionIntervals.KeptOutside | crates/fluvio-protocol-derive/src/de.rs:79-127 | a field keeps what it held, whatever that is, at every version outside its bounds |
| VersionIntervals.RestoredInVariant | crates/fluvio-protocol-derive/src/de.rs:179-282 | decoding an encoded variant restores each of its fields at every version, whatever bounds the field declares |
| CodecVersions.SizeGrows | crates/fluvio-protocol-derive/src/ast/prop.rs:51-92 | without max_version, write_size never shrinks with the version, and stays the same if and only if no field of the value that joins in between takes bytes |
| CodecVersions.SteadyUnchanged | crates/fluvio-protocol-derive/src/ast/prop.rs:51-92 | a value without version-tested fields is the same at all versions from 0 on |
| BatchFormat.HeaderRoundTrip | crates/fluvio-protocol/src/record/batch.rs:167-176 | decoding an encoded file header gives base offset, batch length and header back |
| BatchFormat.EncodeHeader | crates/fluvio-protocol/src/record/batch.rs:404-443 | the file header always takes 57 bytes |
| BatchFormat.HeaderBytes | crates/fluvio-protocol/src/record/batch.rs:458-473 | each number of the file header is written at its place, with its width and sign, behind base offset and batch length |
| BatchFormat.HeaderNumbers | crates/fluvio-protocol/src/record/batch.rs:167-176 | any 57 bytes decode to a header whose numbers are the integers at those places |
| BatchFormat.WriteSizeIffNoSchema | crates/fluvio-protocol/src/record/batch.rs:404-443 | write_size is the encoded length if and only if the batch has no schema id, which bit 4 of the attributes announces and which takes the four bytes behind the header |
| BatchStream.Pread | crates/fluvio-storage/src/file.rs:106-155 | under every schedule of short system calls the loop delivers exactly the bytes of the range that the file has |
| BatchStream.FileBytesIterator.ReadBytes | crates/fluvio-storage/src/file.rs:47-68 | returns the bytes at the position and moves it by the requested length, even past the end |
| BatchStream.ReadFrom | crates/fluvio-storage/src/batch.rs:61-149 | one batch is parsed, or the end or the error there is reported, independently of the read schedule |
| BatchStream.FileBatchStream.TryNext | crates/fluvio-storage/src/batch.rs:230-242 | one step of the stream; after an error every later call fails |
| BatchStream.ReadAll | crates/fluvio-storage/src/batch.rs:166-243 | under every read schedule the stream yields exactly the batches of the file from a position, and then None or an error forever |
| BatchStream.BatchBytes | crates/fluvio-storage/src/mut_records.rs:132-178 | the bytes of each batch lie between its prefix-sum position and the next |
| BatchStream.DrainLog | crates/fluvio-storage/src/batch.rs:61-149 | a log of batches is read back as exactly those batches at their prefix-sum positions, then None |
| BatchStream.DrainCutLog | crates/fluvio-storage/src/batch.rs:61-149 | a log cut at any byte yields the whole batches before the cut, then an error unless the cut is a batch boundary |
| Records.RecordsBack | crates/fluvio-protocol/src/core/decoder.rs:39-75 | the records of a batch decode to what was encoded |
| Records.NegativeCount | crates/fluvio-protocol/src/core/decoder.rs:39-75 | the count of records is signed: a negative one stands for no records, whatever follows |
| Records.RecordBack | crates/fluvio-protocol/src/record/data.rs:527-585 | a record whose deltas and lengths are 32-bit decodes to itself, whatever follows |
| Records.KeyBack | crates/fluvio-protocol/src/core/decoder.rs:77-96 | optional keys decode to themselves |
| Records.DataBack | crates/fluvio-protocol/src/record/data.rs:206-247 | varint-prefixed data decodes to itself |
| Iterators.FileBatchIterator.Next | crates/fluvio-storage/src/iterators.rs:58-153 | under every outcome of its two reads: yields the batch at the offset and moves behind it, ends at the end of the slice, or reports an error, as a short read is one |
| Iterators.FileRecordIterator.Next | crates/fluvio-storage/src/iterators.rs:177-215 | serves queued records first; a batch without records ends the iteration |
| Iterators.CollectBatches | crates/fluvio-storage/src/iterators.rs:58-153 | over a slice that starts at a batch, exactly the batches that start inside it, with the records as stored if the compression bits are 0 and else what the decompressor gives for them; it fails if and only if one of them is not read completely or refused by the decompressor, with those before the first such one |
| Iterators.CollectRecords | crates/fluvio-storage/src/iterators.rs:177-215 | the records of those batches in order, compressed or not, with base plus delta as offset and first timestamp plus delta as timestamp, up to the first empty batch; it fails if and only if a batch before that is not read completely or not decompressed |
| Iterators.CompleteIff | crates/fluvio-storage/src/iterators.rs:177-215 | all records of the slice are yielded if and only if no batch with records follows an empty one |
| OffsetIndex.ToBeTwice | crates/fluvio-storage/src/index.rs:66-70 | swapping bytes twice is the identity, and only position 0 is stored as 0 |
| OffsetIndex.SwapDigits | crates/fluvio-storage/src/index.rs:66-70 | on a little-endian machine to_be puts the four bytes of a number in reverse order |
| OffsetIndex.StoredBytes | crates/fluvio-storage/src/mut_index.rs:211-220 | the index file holds offset and position most significant byte first, each byte given by division |
| OffsetIndex.LookupEntry | crates/fluvio-storage/src/index.rs:197-212 | the binary search over big-endian slots finds the last entry at or below the offset, or that there is none |
| OffsetIndex.MutLogIndex.constructor | crates/fluvio-storage/src/mut_index.rs:48-90 | a new index has its capacity in empty slots and no entry |
| OffsetIndex.MutLogIndex.WriteIndex | crates/fluvio-storage/src/mut_index.rs:184-228 | accumulates below the interval, records an entry at or above it while a slot is free, ignores it when full |
| OffsetIndex.MutLogIndex.FindOffset | crates/fluvio-storage/src/mut_index.rs:240-253 | answers with the last recorded entry at or below the offset |
| OffsetIndex.MutLogIndex.Shrink | crates/fluvio-storage/src/mut_index.rs:136-144 | the shrunk file holds exactly the entries |
| OffsetIndex.LogIndex.FindOffset | crates/fluvio-storage/src/index.rs:172-175 | the read-only index gives the same answers from a shrunk file |
| OffsetIndex.FindFirstEmptyIndex | crates/fluvio-storage/src/mut_index.rs:161-176 | finds the first slot with position 0, fails if there is none |
| OffsetIndex.Open | crates/fluvio-storage/src/mut_index.rs:92-132 | opens with the slots before the first empty one and counters at zero; fails if and only if no slot looks empty |
| OffsetIndex.ReopenIff | crates/fluvio-storage/src/mut_index.rs:161-176 | n stored entries are found again if and only if a slot is free and none sits at position 0; opening fails if and only if every slot is taken by such entries |
| IndexSpacing.RunFollows | crates/fluvio-storage/src/mut_index.rs:184-228 | the entries a run of writes adds are those of the picked writes, in order |
| IndexSpacing.Spacing | crates/fluvio-storage/src/mut_index.rs:197-225 | consecutive recorded positions differ by at least the interval plus the first batch's size, and by less than that plus the last skipped batch |
| IndexSpacing.FirstRecorded | crates/fluvio-storage/src/mut_index.rs:197-225 | the first recorded batch is the first one that starts at or beyond the interval |
| IndexSpacing.AccumulatorBound | crates/fluvio-storage/src/mut_index.rs:197-225 | the accumulator never passes interval - 1 plus one batch size, even when the index is full |
| IndexSpacing.RunStaysOffStart | crates/fluvio-storage/src/mut_index.rs:197-225 | with a positive interval no run of writes records position 0 |
| SegmentLog.MutFileRecords.WriteBatch | crates/fluvio-storage/src/mut_records.rs:132-178 | the file grows by exactly the encoding when it fits the limit and is unchanged otherwise; the length always equals the file's |
| SegmentLog.PickedIncreasing | crates/fluvio-storage/src/mut_index.rs:190-221 | entries of real batches increase strictly in offset and in position |
| SegmentLog.IndexedScanAgrees | crates/fluvio-storage/src/segment.rs:197-227 | scanning from the indexed position finds the batch that a scan from the start finds, for every offset and every set of recorded batches |
| SegmentLog.CoveringContains | crates/fluvio-storage/src/segment.rs:208-227 | the batch found contains the offset, and one is found if and only if the offset lies in the segment |
| SegmentLog.Scan | crates/fluvio-storage/src/segment.rs:207-227 | the scanning loop returns the first batch that reaches the offset, under every read schedule |
| SegmentLog.Segment.AppendBatch | crates/fluvio-storage/src/segment.rs:438-480 | keeps log bytes, batch layout and index entries in agreement, also in a segment that was opened again; appends at the next offset if and only if the last offset delta is not negative and the batch fits, and the end moves by that delta plus one |
| SegmentLog.Segment.FindOffsetPosition | crates/fluvio-storage/src/segment.rs:180-228 | lookup through the index equals the first covering batch of the whole log, and None outside the segment |
| SegmentLog.SegmentSpacing | crates/fluvio-storage/src/segment.rs:438-480 | after every run of appends, the positions of consecutive index entries differ by at least the interval plus the first batch, and by less than that plus the last batch between them |
| SegmentLog.SegmentReopensIff | crates/fluvio-storage/src/mut_index.rs:161-176 | reopening a segment's index finds all its entries if and only if a slot is free and the interval is positive or there are none; it fails if and only if all slots are taken so |
| SegmentReads.RecordsSlice | crates/fluvio-storage/src/segment.rs:117-176 | for every start and maximum, on the active segment: exactly the batches from the one that covers the start to the one that reaches the maximum, nothing for a start outside, MaxOffsetNotFound for a maximum before the segment, Underflow for one before the batch of the start |
| SegmentReads.Close | crates/fluvio-storage/src/segment.rs:414-423 | closing keeps log bytes and index entries; the closed segment takes the log plus eight bytes per slot in use |
| SegmentReads.FindInClosed | crates/fluvio-storage/src/segment.rs:180-228 | lookup in the files of a closed segment, through its shrunk index and a scan under every read schedule, equals the first covering batch of the whole log |
| SegmentReads.ClosedSlice | crates/fluvio-storage/src/segment.rs:117-176 | the same slice from the files of a closed segment |
| SegmentReads.SliceIsBatches | crates/fluvio-storage/src/segment.rs:147-169 | the bytes between the positions of a slice are the encodings of its batches |
| SegmentReads.UnderflowIff | crates/fluvio-storage/src/segment.rs:147-159 | with start and maximum in the segment, positions are subtracted the wrong way round if and only if the maximum lies before the batch of the start; otherwise a maximum below the start serves nothing |
| SegmentReads.UnderflowHappens | crates/fluvio-spu/src/services/public/fetch_handler.rs:118-125 | every segment with two batches has such a read |
| SegmentReads.ServedIff | crates/fluvio-storage/src/segment.rs:135-169 | a batch is in the slice if and only if it reaches the start and ends below the maximum |
| SegmentReads.OffsetServedIff | crates/fluvio-storage/src/segment.rs:135-165 | no offset at or above the maximum is served; one below it is withheld if and only if its batch reaches the maximum |
| SegmentReads.MaxInsideFirstBatch | crates/fluvio-storage/src/segment.rs:147-159 | a maximum inside the batch of the start serves nothing |
| SegmentReads.ConsumerParses | crates/fluvio-storage/src/replica.rs:414-418 | a slice cut to a maximum length parses to its first batches, whole, with an error unless the cut is a boundary |
| SegmentRecovery.Validate | crates/fluvio-storage/src/validator.rs:110-240 | under every read schedule, what validation reports of any log and index: last offset, end of the last batch, a batch below the base, the error that ended it, an entry at another position |
| SegmentRecovery.CutValidates | crates/fluvio-storage/src/validator.rs:110-240 | of a log cut anywhere, with an index of its batches, it reports the whole batches before the cut, a recoverable error unless the cut is a boundary, and nothing else |
| SegmentRecovery.MismatchIff | crates/fluvio-storage/src/validator.rs:110-240 | of a log cut anywhere, with any increasing index, it reports a mismatch if and only if an entry has the offset of a whole batch before the cut but not its position |
| SegmentRecovery.OpenForWrite | crates/fluvio-storage/src/segment.rs:326-405 | such a segment comes back with exactly those batches and their end offset, its log cut there; it is valid, so that appends and lookups go on as proved, if and only if no index entry points at or behind the end; opening fails if and only if no slot looks empty |
| SegmentRecovery.OwnFiles | crates/fluvio-storage/src/segment.rs:326-351 | every segment that grew by appends leaves files of this kind, wherever its log is cut; uncut, no entry points behind the end |
| SegmentRecovery.StaleEntryMisleads | crates/fluvio-storage/src/segment.rs:197-227 | with an entry at or below an offset that points behind its batch, the lookup starts to scan behind that batch |
| SegmentList.SegmentList.UpdateMinMax | crates/fluvio-storage/src/segments.rs:212-227 | the cached bounds are the first base and the greatest end |
| SegmentList.SegmentList.AddSegment | crates/fluvio-storage/src/segments.rs:201-210 | inserts in order, replacing a segment with the same base, and keeps the bounds |
| SegmentList.SegmentList.RemoveSegment | crates/fluvio-storage/src/segments.rs:239-246 | removes the segment with that base, reports whether there was one, and keeps the bounds |
| SegmentList.SegmentList.RemoveSegments | crates/fluvio-storage/src/segments.rs:114-119 | removes exactly the segments with the given bases |
| SegmentList.SegmentList.FindSegment | crates/fluvio-storage/src/segments.rs:254-271 | the segment with the greatest base at or below the offset, exactly for offsets from the first base up to the greatest end |
| SegmentList.InsertIsMapInsert | crates/fluvio-storage/src/segments.rs:201-210 | the ordered list behaves as a map keyed by base offset |
| SegmentList.WithoutIsFilter | crates/fluvio-storage/src/segments.rs:239-246 | removal keeps order and all other segments |
| SegmentList.FindIsFloor | crates/fluvio-storage/src/segments.rs:254-271 | the arithmetic range of the lookup never misses the floor segment |
| SegmentList.FindContainsIff | crates/fluvio-storage/src/segments.rs:254-271 | without overlaps the result contains the offset if and only if some segment does |
| SegmentList.NoGapFinds | crates/fluvio-storage/src/segments.rs:254-271 | without gaps a segment is found if and only if the offset lies in the log, and contains it |
| SegmentList.GapIsAnsweredWrongly | crates/fluvio-storage/src/segments.rs:254-271 | an offset in a gap is answered with the segment before the gap |
| Cleaner.SegmentsToRemove | crates/fluvio-storage/src/cleaner.rs:86-94 | the fewest segments of full size that cover the excess over the limit |
| Cleaner.CountBound | crates/fluvio-storage/src/cleaner.rs:88-94 | that many segments cover the excess and overshoot it by less than one segment |
| Cleaner.FindFirst | crates/fluvio-storage/src/segments.rs:286-289 | the bases of the oldest segments, in order |
| Cleaner.Cleaner.EnforceSize | crates/fluvio-storage/src/cleaner.rs:85-111 | a pass removes an oldest prefix of that many segments and stores the size of the rest; within the limit it changes nothing |
| Cleaner.Cleaner.EnforceTtl | crates/fluvio-storage/src/cleaner.rs:114-134 | exactly the expired segments go, the others keep their order |
| Cleaner.Cleaner.CleanUntilStable | crates/fluvio-storage/src/cleaner.rs:56-80 | repeated passes end within the limit or without closed segments, after at most one pass per segment, with a suffix left |
| Cleaner.PassKeeps | crates/fluvio-storage/src/cleaner.rs:85-111 | with segments of at most the segment size plus an extra, a pass keeps the total above the limit less one segment and the extra of those removed |
| Cleaner.PassKeepsEnough | crates/fluvio-storage/src/cleaner.rs:85-111 | with segments of at most the segment size, a pass keeps the total above the limit less one segment |
| Cleaner.PassKeepsLookups | crates/fluvio-storage/src/cleaner.rs:85-111 | after a size pass every offset of the closed segments from the new first base on is served by the same segment as before, and none below |
| Replica.FileReplica.constructor | crates/fluvio-storage/src/replica.rs:240-253 | a new replica has no batches and its end at the base offset |
| Replica.FileReplica.RollOver | crates/fluvio-storage/src/replica.rs:485-500 | the active segment becomes the last closed one with its log and index files, and an empty one starts where it ends; the stored size stays exact, and the closed segment has the size recorded for the active one, or one slot more if its index was empty |
| Replica.FileReplica.WriteBatch | crates/fluvio-storage/src/replica.rs:432-478 | a batch is stored at the next offset if and only if it has records and fits a segment and no write failed before; otherwise nothing is stored then or later; segments stay without gaps and stored sizes exact |
| Replica.ReadRecords | crates/fluvio-storage/src/replica.rs:365-429 | after every run of writes, refused or not, and size passes: every start is answered with the bytes of its batches from the active segment or from the files of the closed segment that contains it, never more than the maximum length, with None at the end, and with an error beyond it or before the log |
| Replica.AnswerParses | crates/fluvio-storage/src/replica.rs:405-429 | such an answer is a prefix of the bytes of the batches asked for, all of them if they fit the maximum length and else exactly that many, and a consumer parses from it those batches in order, whole, and an error if and only if it ends inside one |
| Replica.OneLog | crates/fluvio-storage/src/replica.rs:432-500 | the batches of all segments, closed and active, form one log without gaps from the log start to the end |
| Replica.EveryOffsetServed | crates/fluvio-storage/src/replica.rs:365-412 | every offset from the log start to the end is served: such an answer without a maximum offset is the batch that contains the offset in the whole log, and those that follow to the end of its segment, all their bytes if they fit the maximum length and else exactly that many |
| Replica.Clean | crates/fluvio-storage/src/cleaner.rs:85-111 | a size pass over the replica's own sizes drops whole segments from the front, keeps the replica valid with exact sizes, and leaves more than the limit less one segment and the index files removed |
| Replica.OversizedSegmentCutsDeep | crates/fluvio-storage/src/segment.rs:230-232 | a segment filled by any batch to the segment size is larger than that when closed, and a pass over it goes below the limit less one segment |
| Expiry.UnexpiredContiguousIff | crates/fluvio-storage/src/cleaner.rs:114-134 | what expiry leaves of a list without gaps has none if and only if no expired segment lies between two that stay |
| Expiry.UnexpiredFollowsIff | crates/fluvio-storage/src/cleaner.rs:114-134 | it follows the active segment without gaps if and only if no segment with offsets has expired behind one that stays |
| Expiry.ExpiryLeavesGap | crates/fluvio-storage/src/segments.rs:254-271 | if the middle one of three segments expires, its offsets are answered with the first |
| Expiry.Expire | crates/fluvio-storage/src/cleaner.rs:114-134 | an expiry pass over a replica: exactly the expired segments go, sizes stay exact, and the replica is valid, with the end of its log, if and only if no segment with offsets has expired behind one that stays |
| Expiry.CleanPass | crates/fluvio-storage/src/cleaner.rs:56-80 | both passes as the cleaner runs them: if segments expire oldest first the replica stays valid, and holds the end of its log |
| CheckpointWriter.Create | crates/fluvio-storage/src/checkpoint.rs:57-101 | an existing file gives the published offset, a bad one gives 0, a missing one the initial offset |
| CheckpointWriter.LazyWriter.Read | crates/fluvio-storage/src/checkpoint.rs:181-200 | a file is an offset if and only if it has 8 bytes |
| CheckpointWriter.LazyWriter.OnOffset | crates/fluvio-storage/src/checkpoint.rs:150-179 | writes unless the offset is the one loaded at start |
| CheckpointWriter.RecoveredAfterRun | crates/fluvio-storage/src/checkpoint.rs:150-207 | after every interleaving of publishing and writing, the file holds the last processed offset other than the loaded one, or what it held |
| CheckpointWriter.RecoversLatestIff | crates/fluvio-storage/src/checkpoint.rs:150-179 | the latest processed offset is recovered if and only if the writer did not come back to the loaded one after another |
| CheckpointWriter.RevertIsLost | crates/fluvio-storage/src/checkpoint.rs:150-179 | after a, b and a again the file says b |
| CheckpointWriter.LongFileRecoversZero | crates/fluvio-storage/src/checkpoint.rs:181-207 | a file longer than 8 bytes recovers 0 after every run |
| CheckpointWriter.SafeRecovery | crates/fluvio-storage/src/checkpoint.rs:57-118 | for non-decreasing offsets, what is recovered was loaded or published, is never ahead, and is the latest processed offset |
| Multiplexer.IdsDistinctIff | crates/fluvio-socket/src/multiplexing.rs:122-124 | the ids of n calls are distinct if and only if n is at most 2^32 |
| Multiplexer.StepKeepsInv | crates/fluvio-socket/src/multiplexing.rs:128-275 | every step of a caller, the dispatcher or the peer keeps the invariant |
| Multiplexer.ReachableInv | crates/fluvio-socket/src/multiplexing.rs:396-532 | the invariant holds after every interleaving |
| Multiplexer.OkCarriesOwnId | crates/fluvio-socket/src/multiplexing.rs:181-217 | a caller that returns Ok returns the decoding of a frame that carried its own id |
| ResponseLoss.SlotIsLast | crates/fluvio-socket/src/multiplexing.rs:455-532 | over every run, a slot is filled if and only if a frame was stored in it and its entry was not closed, and holds the last such frame |
| ResponseLoss.ResponseLostIff | crates/fluvio-socket/src/multiplexing.rs:181-217 | over every run, a caller that was woken is told that the connection is closed if and only if its entry was closed, and gets the last response otherwise |
| ResponseLoss.ResponseLost | crates/fluvio-socket/src/multiplexing.rs:525-532 | a run in which the response had come |
| StreamClose.EndOfStreamIff | crates/fluvio-socket/src/multiplexing.rs:507-522 | over every run, a stream was given None if and only if the peer disconnected and the visit of its entry found its receiver there; None is then its only one and its last item, and the stream can be read until None is taken |
| StreamClose.EveryStreamTold | crates/fluvio-socket/src/multiplexing.rs:415-451 | when the dispatcher stops, every registered stream that is not closed has None as its last item if the peer disconnected, and after terminate there is none that is not closed |
| StreamClose.ClosedIff | crates/fluvio-socket/src/multiplexing.rs:434-446 | over every run, a queue is closed if and only if its request failed, its stream was dropped or terminate visited it, and never opens again |
| Progress.NoDeadlock | crates/fluvio-socket/src/multiplexing.rs:397-522 | over every run, until it has stopped the dispatcher can take its next step, or it waits for room in the full queue of an open stream whose consumer can take one |
| Progress.CallerGoesOn | crates/fluvio-socket/src/multiplexing.rs:121-219 | while the lock is free every serial call that has not returned can go on: until it is woken it can be dropped, while it waits it can time out, and it wakes if and only if it was notified |
| Progress.StreamGoesOn | crates/fluvio-socket/src/multiplexing.rs:221-294 | a stream needs the lock for its registration only; once open it can be read if and only if something is queued |
| Progress.RegisterSweeps | crates/fluvio-socket/src/multiplexing.rs:232-262 | registering a stream removes the queues whose receiver is gone, and no other entry |
| Multiplexer.ForeignFrameInvisible | crates/fluvio-socket/src/multiplexing.rs:455-506 | a frame for any other id changes nothing the caller can see; one for an unknown id changes nothing at all |
| Multiplexer.ForeignFrameBlocksIff | crates/fluvio-socket/src/multiplexing.rs:470-498 | the steps of a call that need the lock stay enabled after such a frame if and only if it did not find a full queue |
| Multiplexer.SerialEntryIff | crates/fluvio-socket/src/multiplexing.rs:151-187 | a serial call has an entry in senders exactly while registered and not removed by itself; a failed write or a dropped future leaves it behind; a timeout implies stale |
| Multiplexer.ResponseWakesListener | crates/fluvio-socket/src/multiplexing.rs:459-469 | a frame for a listening call reaches its slot and wakes it |
| Multiplexer.NoLostWakeup | crates/fluvio-socket/src/multiplexing.rs:155-160 | every response since the call listened has notified it |
| Multiplexer.StreamInOrder | crates/fluvio-socket/src/multiplexing.rs:232-327 | items read, queued and in the dispatcher's hand are exactly the frames for the stream's id since registration, in order, and the queue never exceeds its capacity |
| Multiplexer.StaleStays | crates/fluvio-socket/src/multiplexing.rs:113-119 | once stale, always stale |
| Multiplexer.StaleIff | crates/fluvio-socket/src/multiplexing.rs:113-119 | over every run, the connection is stale if and only if a caller timed out, the peer disconnected or it was set |
| Multiplexer.SlotLockFree | crates/fluvio-socket/src/multiplexing.rs:189-214 | when a caller reads its slot no entry leads there, so the lock attempt cannot fail |
| Multiplexer.CloseWakesIff | crates/fluvio-socket/src/multiplexing.rs:508-532 | over every run, once the dispatcher has stopped, a waiting call can wake if and only if a close reached it while it listened or a frame for it came since it listens |
| Multiplexer.HeardCloseIff | crates/fluvio-socket/src/multiplexing.rs:508-532 | a call has heard the close if and only if its entry was visited while it listened |
| Multiplexer.LateCallStranded | crates/fluvio-socket/src/multiplexing.rs:128-161 | a call that starts after the dispatcher has stopped is stranded |
| Multiplexer.UnheardStranded | crates/fluvio-socket/src/multiplexing.rs:152-161 | over every run, so is one that had not listened by then |
| Multiplexer.LateStreamSilent | crates/fluvio-socket/src/multiplexing.rs:222-275 | a stream opened after the stop has nothing to yield |
| Multiplexer.SilentStays | crates/fluvio-socket/src/multiplexing.rs:280-327 | and never yields in any continuation |
| Multiplexer.MissedClose | crates/fluvio-socket/src/multiplexing.rs:152-161 | a close between registration and listening leaves the caller waiting, unnotified |
| Multiplexer.StrandedStays | crates/fluvio-socket/src/multiplexing.rs:163-181 | in every continuation only its timeout or dropping its future ends that wait |
| Multiplexer.StrandedReachable | crates/fluvio-socket/src/multiplexing.rs:508-532 | such a state is reachable |
| FileWriters.WriterDifference | crates/fluvio-spu-schema/src/fetch/response.rs:137-192 | for every description and every list of steps that treats its fields in order under their version tests: what file_encode writes and what it leaves out add up to write_size; with nothing left out it is the derived encoding |
| ZeroCopy.Output.PutSlice | crates/fluvio-spu-schema/src/file.rs:83-98 | a slice adds its length and its bytes behind everything encoded before |
| ZeroCopy.Output.FileEncode | crates/fluvio-protocol/src/store.rs:39-58 | store values and buffer together grow by exactly the bytes of the steps, nested structs and vectors included, and every record set is passed on as its file slice, in order |
| ZeroCopy.EncodeFramed | crates/fluvio-protocol/src/store.rs:60-112 | length prefix at one version, header and body at another, behind what was there |
| ZeroCopy.ResponsePrefixIff | crates/fluvio-protocol/src/store.rs:60-88 | the prefix counts the bytes after it if and only if nothing that takes bytes was left out |
| ZeroCopy.CompleteIsPlain | crates/fluvio-protocol/src/store.rs:60-88 | a message whose steps leave nothing out is its derived encoding behind a right prefix |
| ZeroCopy.RequestPrefixIff | crates/fluvio-protocol/src/api/request.rs:149-151 | for requests whose fields only ever join, the prefix is right if and only if no field that is live at only one of API version and version takes bytes |
| ZeroCopy.WriteStoreValues | crates/fluvio-socket/src/sink.rs:139-222 | the returned count is the number of bytes on the wire |
| ZeroCopy.DeliveredIff | crates/fluvio-socket/src/sink.rs:139-222 | the wire carries the message if and only if every slice was read completely, and less otherwise |
| ZeroCopy.Send | crates/fluvio-socket/src/sink.rs:120-137 | with complete reads the wire carries the framed message; the count is always the number of bytes on the wire |
| FileShapes.MatchesFollows | crates/fluvio-spu-schema/src/fetch/response.rs:137-192 | steps that treat the fields of a description in order, each under its own test, follow the derived code and leave nothing out |
| FileMessages.SentIsPlain | crates/fluvio-spu-schema/src/fetch/response.rs:137-192 | fetch and stream fetch responses, replication requests and the mirroring requests of both directions, at every version from 0 on, are sent as their derived encoding behind a right prefix |
| FileMessages.NegativeVersionDiffers | crates/fluvio-protocol-derive/src/ast/prop.rs:51-92 | below version 0 they differ: the derived code skips every field, file_encode does not |
| FileMessages.ReceiverDecodes | crates/fluvio-spu-schema/src/fetch/response.rs:60-135 | the receiver decodes the message that was sent, records read from the file included: its live fields at every version from 0 on, and all of it from version 11 on, of requests from 0 on |
| FileMessages.RequestPrefixAnyVersions | crates/fluvio-protocol/src/store.rs:90-112 | replication requests and mirroring requests of both directions have a right prefix at every two versions |
| FileMessages.ProduceMissing | crates/fluvio-spu-schema/src/produce/request.rs:229-243 | what a file-encoded produce request leaves out are its encoded smart modules |
| FileMessages.ProduceRequestPrefixWrong | crates/fluvio-spu-schema/src/produce/request.rs:79-102 | whatever the two versions are, its length prefix exceeds what follows by their size at the version it was taken at, and is never right |
| MessageBytes.PartitionBytes | crates/fluvio-spu-schema/src/fetch/response.rs:55-79 | the bytes of a fetched partition, number by number; the next offset of a filter is there from version 11 on |
| MessageBytes.FetchBytes | crates/fluvio-spu-schema/src/fetch/response.rs:13-24 | the bytes of a fetch response |
| MessageBytes.StreamFetchBytes | crates/fluvio-spu-schema/src/server/stream_fetch.rs:118-123 | the bytes of a stream fetch response |
| MessageBytes.PeerPartitionBytes | crates/fluvio-spu/src/replication/follower/sync.rs:104-114 | the bytes of a partition in a sync request between replicas |
| MessageBytes.MirrorBytes | crates/fluvio-spu/src/mirroring/remote/sync.rs:24-32 | the bytes of a mirroring request, to which its wrapper adds none |
| MessageBytes.ProduceBytes | crates/fluvio-spu-schema/src/produce/request.rs:27-46 | the bytes of a produce request |
| KvStore.EntryRoundTrip | crates/fluvio-kv-storage/src/log.rs:130-139 | log entries decode to themselves |
| KvStore.EntryBytes | crates/fluvio-kv-storage/src/log.rs:130-139 | an entry is its tag in one byte, 0 for an update, 1 for a removal and 2 for a checkpoint, and then its byte strings, each behind a length of four bytes |
| KvStore.ItemRoundTrip | crates/fluvio-kv-storage/src/log.rs:181-191 | keys and values decode to themselves |
| KvStore.AfterCheckpointIsSuffix | crates/fluvio-kv-storage/src/log.rs:101-110 | what replay reads is the part of the log after the last checkpoint |
| KvStore.DiscardBeforeCheckpoint | crates/fluvio-kv-storage/src/log.rs:98-127 | entries before a checkpoint, decodable or not, never affect replay |
| KvStore.ReplayAppend | crates/fluvio-kv-storage/src/log.rs:112-122 | appending an entry applies it to the replay |
| KvStore.FlushThenReplay | crates/fluvio-kv-storage/src/log.rs:86-127 | flush then replay gives the cache, for every earlier log and every iteration order of the map |
| KvStore.StepTracks | crates/fluvio-kv-storage/src/log.rs:41-96 | put, delete, flush and sync, accepted or refused, keep cache and replay apart by exactly the outstanding failed deletes |
| KvStore.RunTracks | crates/fluvio-kv-storage/src/log.rs:41-127 | after every run the cache equals the replay if and only if no failed delete is outstanding |
| KvStore.AcceptedRunConsistent | crates/fluvio-kv-storage/src/log.rs:41-127 | when every append succeeds the cache always equals the replay |
| KvStore.FromEmptyStore | crates/fluvio-kv-storage/src/log.rs:41-127 | from the empty store: cache and replay agree after a run if and only if no failed delete is outstanding, and always when every append succeeds |
| KvStore.HoldsWhatIsSeen | crates/fluvio-kv-storage/src/log.rs:41-127 | over every run from the empty store, accepted or refused, a key holds in cache and log what the operations leave of it, seen as one cell each without entries or bytes |
| KvStore.LastWriteWins | crates/fluvio-kv-storage/src/log.rs:41-59 | when every append succeeds, a key holds the value of the last put or delete of it if that is a put, and is absent if it is a delete |
| KvStore.UntouchedAbsent | crates/fluvio-kv-storage/src/log.rs:41-59 | a key that none of them names is absent |
| KvStore.LogBasedKVStorage.Put | crates/fluvio-kv-storage/src/log.rs:48-59 | an accepted put sets the key in the cache, present or not, and adds one log entry that decodes to the key and the value; a refused one changes neither |
| KvStore.LogBasedKVStorage.Delete | crates/fluvio-kv-storage/src/log.rs:41-46 | the key leaves the cache, accepted or not; an accepted delete adds one log entry that decodes to its removal |
| KvStore.LogBasedKVStorage.Flush | crates/fluvio-kv-storage/src/log.rs:86-96 | the cache stays; after an accepted flush the log replays to it, and a refused one leaves the log |
| KvStore.LogBasedKVStorage.Replay | crates/fluvio-kv-storage/src/log.rs:98-127 | the cache becomes the replay of the log, which stays; an undecodable entry leaves the cache untouched |
| KvStore.RecordsOf | crates/fluvio-kv-storage/src/log.rs:86-96 | the loop of flush builds a checkpoint and one entry for every pair of the cache, in its iteration order |
| KvStore.ReadFromEnd | crates/fluvio-kv-storage/src/log.rs:101-112 | reading backwards to a checkpoint and reversing gives the entries after it |
| KvStore.Rebuild | crates/fluvio-kv-storage/src/log.rs:112-122 | the loop rebuilds the fold of the entries, or fails if and only if one of them does |
| PackageReleases.PushSort | crates/fluvio-package-index/src/package.rs:96-100 | pushing a new version and sorting gives a strictly increasing list of the same releases |
| PackageReleases.SortPermutes | crates/fluvio-package-index/src/package.rs:99 | sorting permutes |
| PackageReleases.Package.AddRelease | crates/fluvio-package-index/src/package.rs:85-104 | exactly the pair of version and target is added; a new version comes as one release that is not yanked, an existing one gets the target and keeps its flag; releases stay strictly sorted with no repeated version or target |
| PackageReleases.Package.FindVersion | crates/fluvio-package-index/src/package.rs:87-90 | finds the release with exactly this version if there is one |
| PackageReleases.Package.LatestRelease | crates/fluvio-package-index/src/package.rs:54-60 | the release above all others, an error if and only if there is none |
| PackageReleases.Package.LatestReleaseForTarget | crates/fluvio-package-index/src/package.rs:66-78 | the greatest version with the target, without prerelease the greatest that has neither a prerelease tag nor build metadata; an error if and only if there is none |
| PackageReleases.AddAll | crates/fluvio-package-index/src/package.rs:85-104 | after any additions to a new package its pairs are exactly those added |
| PackageReleases.SamePairsSameVersions | crates/fluvio-package-index/src/package.rs:85-104 | packages with the same pairs list the same versions in the same order with the same targets, whatever the order of calls |
| PackageId.TryFromSegments | crates/fluvio-package-index/src/package_id.rs:13-25 | the segments of a text give the URL of that text with a slash at its end |
| PackageId.FromStr | crates/fluvio-package-index/src/package_id.rs:317-349 | a text spelled as registry, group, name and version, the first two optional, parses to what these mean, and every other text is refused |
| PackageId.FromStrMaybe | crates/fluvio-package-index/src/package_id.rs:351-386 | the same where the version is optional |
| PackageId.VersionOfText | crates/fluvio-package-index/src/version.rs:20-37 | version text that the semantic version parser accepts becomes that version, any other ASCII text a tag, and the version is what is refused if and only if it is neither |
| PackageId.JoinSplit | crates/fluvio-package-index/src/package_id.rs:13-25 | joining what was split gives the text back |
| PackageId.RoundTripIff | crates/fluvio-package-index/src/package_id.rs:317-400 | for every text that parses, printing and parsing again gives the same identifier if and only if its registry ends in a slash and is what the URL parser gives for it without a doubled last slash |
| PackageId.RoundTripMaybeIff | crates/fluvio-package-index/src/package_id.rs:351-419 | the same where the version is optional |
| PackageId.FixedPointSurvives | crates/fluvio-package-index/src/package_id.rs:13-25 | a registry in normal form with one last slash meets the condition |
| PackageId.DoubledSlashLost | crates/fluvio-package-index/src/package_id.rs:13-25 | one with a doubled last slash does not, if the parser keeps the two texts apart |
| PackageId.DoubledSlashParses | crates/fluvio-package-index/src/package_id.rs:317-349 | three slashes before the group parse to such a registry, and the identifier then does not survive printing, if the URL parser keeps the two texts apart |
| PackageId.UidUnique | crates/fluvio-package-index/src/package_id.rs:252-254 | with registries that end in a slash, unique forms are equal exactly for equal registry, group and name |

## Left out

- Codec: f32, f64, Duration and BTreeMap, and the UTF-8 check of strings, which are bytes here; they add cases, not properties.
- CodecLaws.WriteSizeIsLength: a varint whose encoding loop does not end counts as no bytes on both sides.
- Varint.VariantSize: the model leaves the loop after a number of rounds; the source goes on forever where it does not end.
- Varint.DecodeVarint: a tenth continuation byte, which overflows the shift, is reported as invalid data.
- BatchStream.StepAt: a length field below the header size, which underflows in the source, is reported as a bad header; u32 positions do not wrap.
- SegmentLog.Segment.AppendBatch: offsets in a segment stay below 2^31 and positions below 2^32, batches carry no schema id, and input and output errors of the file are not modelled.
- SegmentReads.RecordsSlice: `Underflow` stands for the panic or wrapped length of the unsigned subtraction.
- SegmentReads.Close: closing an empty segment, whose successor has the same base and so the same file names, keeps both as separate files here; an empty index file is mapped with one zero slot.
- Iterators.FileBatchIterator.Next: the decompressor is any function of codec number and bytes that may fail; codec numbers the library does not know are among its failures.
- Iterators.CollectBatches: batches without schema ids, as the log holds them.
- Records.RecordBack: deltas and lengths within 32 bits, the range in which varints survive.
- Cleaner.Cleaner.EnforceSize: the segment size is positive, since the source divides by it.
- Cleaner.PassKeepsEnough: the size condition is sufficient, not necessary, because a small segment can make up for a large one; Cleaner.PassKeeps is the bound without it.
- Replica.FileReplica.RollOver: opening the closed segment for reading succeeds and finds the bytes and entries it was closed with.
- Replica.Clean: the size pass; Expiry.Expire is the other one.
- Expiry.CleanPass: if segments do not expire oldest first, the replica may still be valid, since the size pass may have removed those that stayed; Expiry.Expire has the exact condition for what it finds.
- SegmentRecovery.Validate: the index is increasing, as binary search on another one has no meaning; a mismatch of index and log leads to a rebuilt index, which is not modelled.
- CheckpointWriter.Create: file system errors other than a wrong length; timers and the flush delay only decide when steps happen.
- Multiplexer.StepKeepsInv: at most 2^32 calls; decoding errors of a response, and dropping a future before it registers or after it removed its entry, which leave no trace in the shared state.
- ZeroCopy.Send: messages below 2 GiB, as the i32 prefix demands; sockets that fail midway.
- ZeroCopy.RequestPrefixIff: descriptions without max_version, as no file-encoded message has one. No request of the repository has a field that joins, and all its callers write at the API version.
- FileMessages.SentIsPlain: the descriptions of error codes and smart modules are parameters; PhantomData fields, which take no bytes, are left out, and timeouts and isolation are the integers they are converted to.
- KvStore.LogBasedKVStorage.Put: keys and values that the codec restores; the log append is accepted or refused as a whole.
- PackageReleases.Package.AddRelease: the order on versions is any strict total order that agrees with equality, as the library's is; yanked releases are treated as the source treats them, like others.
- PackageId.RoundTripIff: the URL parser is any function, and printing a parsed semantic version gives text that parses back and has no separator.
- Rebuilding an index (repair.rs) and loading a replica from its directory.
- The contents of checksums, compression algorithms, memory mapping and flush policies.
- Command line, cluster installation, Kubernetes controllers, connectors, TLS, authorization and SmartModule execution.
