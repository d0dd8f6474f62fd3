# Verified models of shimanism's protocol and code-generation cores

This project models the parts of the repository that do real algorithmic work and
proves what they promise, for all inputs. `dafny verify dfyconfig.toml` checks all
of it.

* **Kafka frontend** (`Words`, `Varint`, `WordBits`, `KafkaRecord`, `RecordBatches`,
  `RecordEncoder`, `RecordRoundTrip`, `KafkaFrame`, `KafkaServer`,
  `KafkaSessions`, `KafkaAnswers`, `KafkaRuns`): zig-zag varints on 32-bit words, records that
  find their own size, batches split at offset gaps and sealed with a checksum
  patched into the serialised bytes, a decoder for arbitrary bytes, frames and
  request headers, the serve loop, and Produce and Fetch over an append-only log.
* **Azure `allOf` flattening** (`GoStrings`, `ArmFlatten`): an in-place, bounded
  fixed-point iteration over a possibly cyclic graph of definitions.
* **Smithy shape collection** (`SmithyCollect`): a depth-first walk with a seen set
  and a post-order list, and which type names the generated code declares.
* **HTTP routing and canonical forms** (`UriText`, `UriTemplate`, `RestRouter`,
  `RequestPaths`, `CanonicalQuery`, `OciPaths`, `OciLocations`): URI templates, a
  lazily sorted route table, what it sees of a client's path, the canonical query
  string of AWS signatures, and Location headers that lead back.
* **JSON key scanner and printer** (`JsonKeys`, `JsonInject`, `JsonDocument`, `JsonOutput`): a
  hand-written pushdown scanner against the grammar of RFC 8259, and what the
  rewritten file means.

Each loop or object of the source is a method or class here; its `ensures` ties it
to a specification function, and the lemmas prove what that function promises. The
byte layouts of records and batches, which the wire library owns, are those of
sections 5.3.1 and 5.3.2 of the Apache Kafka documentation. The checksum is any
function of the covered bytes. `Options`, `Sequences` and `Hex` hold what several
modules share. Clients read a Location as RFC 3986 says (sections 3.3, 5.2.4 and
2.1) and write paths as Go's net/url does.

Where the code does less than its documentation or its callers may expect, the code
is kept and the exact condition is proved:

* Below 2^32 bytes a batch, an encoded list decodes if and only if every batch fits
  an int32; a longer one is encoded with a wrapped length and refused, which one
  Fetch of records that came in one by one can meet (`RecordRoundTrip.DecodesIffFits`,
  `KafkaRuns.BulkFetchRefused`).
* A stream cut just after a size prefix ends as a clean end of stream
  (`KafkaFrame.CleanEnd`).
* A template that is a single label does not match its own expansion with an empty
  value, and a greedy label may be missing (`UriTemplate.ExpansionMatches`,
  `UriTemplate.GreedyMayBeMissing`).
* A label's value with a percent sign is decoded once too often unless the request
  keeps its path as it was sent, and a raw question mark ends the path
  (`RequestPaths.RoutedLabels`).
* `render` declares no type for an `intEnum` (`SmithyCollect.IntEnumUndeclared`).
* Repository names that end in `/blobs` or `/manifests`, not only names that contain
  a marker, lose their blob or manifest Locations, and so do names that do not stand for
  themselves in a URI path (`OciPaths.NameEndingInBlobs`,
  `OciLocations.UploadLeadsBack`).
* When a top-level JSON name is spelled with an escape, some name is looked up in
  vain and the file written is no JSON text, and another name may be given a wrong
  value; a name with `<`, `>`,
  `&`, U+2028 or U+2029 has that effect on the second rewrite
  (`JsonOutput.OutputIsJsonIff`, `JsonDocument.EscapedNameMistaken`,
  `JsonDocument.SecondRefreshFindsAll`).

## Model

| member | source | states |
|---|---|---|
| `Words.GetPut` | internal/eventstream/kafkaserver/server.go:790 | Reading a big-endian field gives the written number modulo the field size, for every number and width. |
| `Words.BigEndian` | internal/eventstream/kafkaserver/server.go:790 | Byte k of a written field counts the power of 256 of the number of bytes behind it: most significant first. |
| `Words.UnsignedRoundTrip` | internal/eventstream/kafkaserver/server.go:680 | The stored 32-bit checksum is read back as it was written. |
| `Words.Int32RoundTrip` | internal/eventstream/kafkaserver/server.go:671 | Every int32 field is read back as it was written, negative ones included. |
| `Varint.VarintRoundTrip` | internal/eventstream/kafkaserver/server.go:818-840 | For every int32 and every suffix, readVarint on what appendVarint wrote returns that int32 and exactly the written length, 1 to 5 bytes. |
| `Varint.VarintPrefixFree` | internal/eventstream/kafkaserver/server.go:818-840 | No encoding is a prefix of another: the text determines the value and the rest. |
| `Varint.GroupsRoundTrip` | internal/eventstream/kafkawire/frame.go:237-251 | A number of at most `max` seven-bit groups is read back with its exact length, for both word sizes. |
| `Varint.GroupsPrefix` | internal/eventstream/kafkawire/frame.go:237-251 | A successful read depends on the bytes it consumes alone: what follows them changes neither value nor length. |
| `WordBits.FoldIsZigZag` | internal/eventstream/kafkaserver/server.go:834 | The shift and exclusive-or of every 32-bit word are the sign fold of the int32 it stands for. |
| `WordBits.UnfoldIsUnZigZag` | internal/eventstream/kafkaserver/server.go:827 | The decoding shift and exclusive-or of every word are the sign unfold of its number. |
| `WordBits.UnfoldUndoesFold` | internal/eventstream/kafkaserver/server.go:827-834 | On the words themselves the one undoes the other. |
| `WordBits.NumOr` | internal/eventstream/kafkaserver/server.go:825 | Words without a bit in common are or-ed by adding their numbers. |
| `WordBits.ReadStep` | internal/eventstream/kafkaserver/server.go:824-825 | or-ing the next seven-bit group in at its shift adds its number times a power of 128, modulo 2^32, and the word stays within its groups. |
| `WordBits.WriteStep` | internal/eventstream/kafkaserver/server.go:835-837 | The low group and the shifted word are remainder and quotient by 128, and the loop condition is the one on numbers. |
| `WordBits.ReadBitsDecodes` | internal/eventstream/kafkaserver/server.go:818-831 | On every byte string the word operations of readVarint give the value and length that the specification gives. |
| `WordBits.WriteBitsEncodes` | internal/eventstream/kafkaserver/server.go:833-840 | The word operations of appendVarint write the base-128 groups of the folded value. |
| `WordBits.BitsRoundTrip` | internal/eventstream/kafkaserver/server.go:818-840 | So, bit by bit, readVarint undoes appendVarint on every int32, whatever follows. |
| `WordBits.AttributeBits` | internal/eventstream/kafkaserver/server.go:693-698 | The decoder's two checks on the attributes of a batch are those on the bits 0x07 and 0x30 of the sign-extended word. |
| `Varint.ReadVarint` | internal/eventstream/kafkaserver/server.go:818-831 | The loop computes the value and length of the groups, 0 for a source that ends early, -1 when a fifth byte asks for more; surplus bits of a fifth byte drop off. |
| `Varint.AppendVarint` | internal/eventstream/kafkaserver/server.go:833-840 | The loop appends exactly the base-128 groups of the folded value to what was there. |
| `KafkaRecord.ReadPutRecord` | internal/eventstream/kafkaserver/server.go:719-724 | Every record whose lengths are int32 values reads back field by field (null and empty apart, headers in order), whatever its length prefix says and whatever follows. |
| `KafkaRecord.ReadPutBatch` | internal/eventstream/kafkaserver/server.go:683-703 | Every batch whose length field is true reads back field by field. |
| `KafkaRecord.TakePutNullable` | internal/eventstream/kafkaserver/server.go:768-770 | A null byte string and an empty one are written differently and read back apart. |
| `KafkaRecord.BatchWindow` | internal/eventstream/kafkaserver/server.go:790 | In a serialised batch bytes 17 to 21 hold the checksum, what it covers starts at 21, the records at 61. |
| `RecordBatches.DecodeRecords` | internal/eventstream/kafkaserver/server.go:706-738 | The loop returns the records of a batch exactly when each takes the bytes it announces and together they take all, with the batch time added; otherwise an error and nothing. |
| `RecordBatches.MillisKept` | internal/eventstream/kafkaserver/server.go:730-758 | A time with an int64 of milliseconds loses less than one millisecond on the wire, and a whole number of them nothing. |
| `RecordBatches.DecodeRecordBatches` | internal/eventstream/kafkaserver/server.go:665-704 | The loop returns what the split of the payload into batches gives, or the error code of the first failing check, in the source's order of checks. |
| `RecordEncoder.EncodeRecord` | internal/eventstream/kafkaserver/server.go:794-804 | From any starting length the loop ends in one round if the length was true and in two otherwise, with the prefix equal to the body length. |
| `RecordEncoder.PatchChecksum` | internal/eventstream/kafkaserver/server.go:790 | In-place: only bytes 17 to 21 change, to the checksum of what follows them. |
| `RecordEncoder.PatchedIsSealed` | internal/eventstream/kafkaserver/server.go:789-791 | Patching the serialised batch equals serialising the batch with that checksum: the window lies outside what is covered. |
| `RecordEncoder.EncodeRecordBatch` | internal/eventstream/kafkaserver/server.go:751-792 | The loop produces the bytes of the sealed batch of the group: deltas from the first time and offset, the greatest time, the record count. |
| `RecordEncoder.RunIsMaximal` | internal/eventstream/kafkaserver/server.go:809-813 | The first run of offsets is contiguous and cannot be extended. |
| `RecordEncoder.GroupsPartition` | internal/eventstream/kafkaserver/server.go:806-816 | The groups of a non-empty list are non-empty, concatenate to it, are contiguous inside and maximal at every border. |
| `RecordEncoder.ContiguousRecordGroups` | internal/eventstream/kafkaserver/server.go:806-816 | The start/i loop returns exactly those groups. |
| `RecordEncoder.EncodeRecordBatches` | internal/eventstream/kafkaserver/server.go:740-749 | The loop appends one sealed batch for each group, in order; no records give no bytes. |
| `RecordRoundTrip.RecordsRoundTrip` | internal/eventstream/kafkaserver/server.go:706-738 | Records written one after another are read back one after another, to the last byte. |
| `RecordRoundTrip.RunOffset` | internal/eventstream/kafkaserver/server.go:806-816 | In a contiguous run every stored offset is the first one plus the distance, wrapping as int64 does. |
| `RecordRoundTrip.GroupParses` | internal/eventstream/kafkaserver/server.go:751-792 | An encoded group that fits passes the decoder's checksum, magic and attribute checks and yields its records, for every checksum function. |
| `RecordRoundTrip.EncodeDecode` | internal/eventstream/kafkaserver/server.go:665-816 | Decoding the encoded batches of any records whose batches fit int32 succeeds and returns the same keys, values, headers and millisecond times in order; first offset plus delta is every stored offset. |
| `RecordRoundTrip.BatchesDescribe` | internal/eventstream/kafkaserver/server.go:751-792 | What a consumer reads off the encoded batches, from the front, each as many records as it holds: record count, first offset and time, first offset plus last offset delta equal to the last stored offset, the greatest of the times, no producer (-1), leader epoch 0; and each record lies its place and its time difference from the first, with its own key, value and headers. |
| `RecordRoundTrip.MaxIsMaximum` | internal/eventstream/kafkaserver/server.go:752-760 | The greatest time is at least the time of each record, and the time of one of them or the starting one. |
| `RecordRoundTrip.OversizedBatchRefused` | internal/eventstream/kafkaserver/server.go:776 | A batch too long for int32 but shorter than 2^32 bytes announces a negative length; at the front of a payload it is refused as corrupt. |
| `RecordRoundTrip.GroupsRefused` | internal/eventstream/kafkaserver/server.go:740-749 | One such batch anywhere in the encoded list makes the whole payload refused. |
| `RecordRoundTrip.DecodesIffFits` | internal/eventstream/kafkaserver/server.go:665-792 | For lists whose batches are below 2^32 bytes: the encoding decodes to what was encoded if and only if every batch fits its int32 length, and is refused as corrupt otherwise. |
| `RecordRoundTrip.BulkRefused` | internal/eventstream/kafkaserver/server.go:776 | There are such lists: 33 contiguous records of 64 MiB are encoded as one batch that is refused. |
| `RecordRoundTrip.BigAlone` | internal/eventstream/kafkaserver/server.go:665-792 | Each of them alone goes through, in less than 64 MiB and 200 bytes. |
| `RecordRoundTrip.AcceptedPayload` | internal/eventstream/kafkaserver/server.go:665-738 | On arbitrary bytes an accepted payload is, byte for byte, whole checksummed plain batches of at least 61 bytes whose record bytes their records cover exactly. |
| `RecordRoundTrip.WellFormedAccepted` | internal/eventstream/kafkaserver/server.go:665-738 | Conversely every sequence of such batches is accepted and yields those batches: accepted payloads are exactly these. |
| `KafkaFrame.ReadFrame` | internal/eventstream/kafkawire/frame.go:34-54 | Takes the frame at the front of the stream, or reports end of stream, a cut frame, a negative or an oversized one. |
| `KafkaFrame.FrameRules` | internal/eventstream/kafkawire/frame.go:34-54 | Byte by byte: a signed big-endian size, 100 MiB where no limit is set, that many bytes; every error by name, with what is left of the stream. |
| `KafkaFrame.NextOfFrame` | internal/eventstream/kafkawire/frame.go:34-54 | A frame within the limit is taken off any stream whole. |
| `KafkaFrame.SplitJoin` | internal/eventstream/kafkawire/frame.go:34-118 | Splitting the concatenation of framed payloads gives back the payloads. |
| `KafkaFrame.CleanEnd` | internal/eventstream/kafkawire/frame.go:38-52 | A stream ends cleanly if and only if nothing is left or it was cut just after the size prefix of a non-empty frame within the limit. |
| `KafkaFrame.Cursor.Int16` | internal/eventstream/kafkawire/frame.go:179-186 | Moves forward exactly past the field it returns, never past the end; an error leaves it inside. |
| `KafkaFrame.Cursor.Int32` | internal/eventstream/kafkawire/frame.go:188-195 | The same for four bytes. |
| `KafkaFrame.Cursor.NullableString` | internal/eventstream/kafkawire/frame.go:197-214 | The same for a length-prefixed string; -1 is null, a smaller or too large length an error. |
| `KafkaFrame.Cursor.Uvarint` | internal/eventstream/kafkawire/frame.go:237-251 | The same for an unsigned varint, which takes at least one byte. |
| `KafkaFrame.Cursor.SkipTags` | internal/eventstream/kafkawire/frame.go:216-235 | The same for the tagged fields; every round takes at least two bytes. |
| `KafkaFrame.TakePutTags` | internal/eventstream/kafkawire/frame.go:216-235 | Any printed list of tagged fields is skipped whole, leaving exactly what follows. |
| `KafkaFrame.DecodeRequest` | internal/eventstream/kafkawire/frame.go:58-105 | Reads the header and hands the rest to the body reader, with the source's order of errors; a body that re-encodes to another length is refused. |
| `KafkaFrame.HeaderRoundTrip` | internal/eventstream/kafkawire/frame.go:58-91 | Every printed header (client ID null or not, any tagged fields when flexible) is read back field by field with the reader exactly at the body. |
| `KafkaFrame.HeaderFields` | internal/eventstream/kafkawire/frame.go:58-71 | In every header that is read, key, version and correlation ID are bytes 0 to 2, 2 to 4 and 4 to 8. |
| `KafkaFrame.PrintedRequest` | internal/eventstream/kafkawire/frame.go:58-175 | A printed request is taken if and only if its key is one of the fourteen served, its version is known, and its body reads to a request of the same length; otherwise it is refused with the error of the first of these that fails. |
| `KafkaServer.AppendResponse` | internal/eventstream/kafkawire/frame.go:108-118 | Appends one frame: the patched size, the correlation ID, the empty tag section where it belongs, the body. |
| `KafkaServer.Server.ProducePartition` | internal/eventstream/kafkaserver/server.go:382-414 | The new topics and the answer are those of the specification of one partition, every refusal included. |
| `KafkaServer.Server.Produce` | internal/eventstream/kafkaserver/server.go:364-419 | The nested loops thread the topics through all partitions in request order; bad acknowledgements change nothing. |
| `KafkaServer.Server.FetchPartition` | internal/eventstream/kafkaserver/server.go:430-454 | Bounds, error code and batches of one partition, as specified. |
| `KafkaServer.Server.Fetch` | internal/eventstream/kafkaserver/server.go:421-459 | One answer for each topic and partition, in order; nothing changes. |
| `KafkaServer.ProduceHasError` | internal/eventstream/kafkaserver/server.go:842-851 | True if and only if some partition of some topic has a non-zero code. |
| `KafkaServer.ProduceAllKeeps` | internal/eventstream/kafkaserver/server.go:364-419 | A Produce request keeps the log contract of every partition. |
| `KafkaServer.RespondKeeps` | internal/eventstream/kafkaserver/server.go:130-164 | So does every dispatched request. |
| `KafkaServer.Server.Dispatch` | internal/eventstream/kafkaserver/server.go:130-164 | Answer, new topics and whether the answer is kept back are as specified. |
| `KafkaServer.Server.HandleFrame` | internal/eventstream/kafkaserver/server.go:115-128 | A payload is refused without effect, or handled with a framed answer, or handled silently. |
| `KafkaServer.Server.ServeConn` | internal/eventstream/kafkaserver/server.go:88-111 | For any byte stream: what is written is the concatenation of the session's framed answers, and the loop ends as the session does. |
| `KafkaSessions.ServeHandlesFrames` | internal/eventstream/kafkaserver/server.go:88-111 | The session is: split the stream into frames, handle them in order, stop at the first failing one or else where frames stop. |
| `KafkaSessions.OneReply` | internal/eventstream/kafkaserver/server.go:130-164 | A handled request gets no answer if and only if it is a Produce with acks 0 all of whose partitions have code 0; a client that takes the correlation ID and, for flexible answers other than API key 18, one empty tagged section off an answer is left with exactly the bytes of the response; and the topics become what the request makes of them. |
| `KafkaSessions.RepliesAsExpected` | internal/eventstream/kafkaserver/server.go:88-142 | Handling a list of payloads gives exactly the expected answers, one each, in request order: ID, tagged section and response bytes; the topics and the first error are the expected ones. |
| `KafkaSessions.ClientReadsAnswers` | internal/eventstream/kafkaserver/server.go:88-142 | For every input stream: a client that splits the output and takes IDs and tagged sections off is left with exactly the response bytes of the requests it sent, in their order; topics and ending are as those requests say. |
| `KafkaAnswers.DecodeErrorCodes` | internal/eventstream/kafkaserver/server.go:665-738 | A refused payload has code 2, 42 or 76; so a refusal is never taken for success. |
| `KafkaAnswers.PartitionProduced` | internal/eventstream/kafkaserver/server.go:364-419 | Every partition of a Produce, in its turn: number and topic come back; code 100 from version 13 on, 42 for a transaction, the payload's own code, 0 and base -1 for no records, 3 for an unknown topic, 42 for an unknown partition or a full log; else 0, with the old length as base offset and the log the old one and then exactly the decoded records. Nothing else changes. |
| `KafkaAnswers.TurnsFollow` | internal/eventstream/kafkaserver/server.go:375-418 | The turns follow one another: each partition finds what the one before it left, the first finds the topics as they were, and what the last leaves is the outcome. |
| `KafkaAnswers.BadAcksRefused` | internal/eventstream/kafkaserver/server.go:368-376 | Acks other than -1, 0 and 1: every partition is answered 21, and no log changes. |
| `KafkaAnswers.ProducedIff` | internal/eventstream/kafkaserver/server.go:364-419 | A partition is answered with code 0 if and only if acks is -1, 0 or 1, the version is below 13, there is no transaction, the payload decodes, and there are no records or the partition exists and has room. |
| `KafkaAnswers.PartitionFetched` | internal/eventstream/kafkaserver/server.go:421-459 | Every partition of a Fetch: 100 from version 13 on, 3 or 42 for an unknown topic or partition, with watermark 0 and -1 for the other bounds; else its true bounds, with code 0 and the encoding of the retained records from the offset on, at most 1024, exactly at the offsets from the earliest to the end of the log, the end included, or anywhere below it when nothing is retained; otherwise code 1. |
| `KafkaRuns.ProduceOneAppends` | internal/eventstream/kafkaserver/server.go:382-414 | One partition's log grows by exactly the decoded records starting at the reported base offset, no other log changes; -1 is reported exactly when there were no records. |
| `KafkaRuns.ProduceAppendsExactly` | internal/eventstream/kafkaserver/server.go:364-419 | Over a whole request every log grows by exactly what its accepted partitions decode to, in request order. |
| `KafkaRuns.FetchReturnsSlice` | internal/eventstream/kafkaserver/server.go:438-453 | An error-free Fetch at offset o carries batches that decode to the log from o, all of it up to 1024 records, at the offsets o, o+1, ... |
| `KafkaRuns.FetchDecodesIffFits` | internal/eventstream/kafkaserver/server.go:438-453 | Below 2^32 bytes a batch, what an error-free Fetch carries decodes to the slice if and only if every batch fits its int32 length, and is refused otherwise. |
| `KafkaRuns.BulkFetchRefused` | internal/eventstream/kafkaserver/server.go:447-453 | A log of 33 records of 64 MiB, each small enough for a frame of the default size, is fetched without error as a batch that does not decode. |
| `KafkaRuns.RunGrows` | services/eventstream/backends/inmem/inmem.go:272-342 | Over every run of requests, retention, creations and deletions the contract holds and, unless its topic is deleted, a log only grows. |
| `KafkaRuns.DecodedMillis` | internal/eventstream/kafkaserver/server.go:730 | Every decoded time is a whole number of milliseconds, so nothing is lost on the way back. |
| `KafkaRuns.FetchDelivers` | internal/eventstream/kafkaserver/server.go:421-459 | What a log holds at some offsets is what an error-free Fetch returns at those of them it covers. |
| `KafkaRuns.ReadYourWrites` | internal/eventstream/kafkaserver/server.go:364-459 | Over any run after an accepted Produce, short of deleting the topic, an error-free Fetch returns at each reported offset it covers exactly the record produced there. |
| `GoStrings.SortStrings` | cmd/azure-codegen/main.go:461-469 | The in-place insertion sort orders the array and keeps its elements. |
| `GoStrings.SortedKeys` | cmd/azure-codegen/main.go:452-459 | The keys, sorted, each once, whatever the map's own order. |
| `GoStrings.SortedUnique` | cmd/azure-codegen/main.go:452-469 | Sorting has one result: two sorted lists of the same elements are equal. |
| `GoStrings.LeqTransitive` | cmd/azure-codegen/main.go:465 | String comparison is transitive. |
| `GoStrings.LeqMeans` | cmd/azure-codegen/main.go:465 | It is ascending: a prefix first, else the smaller character at the first difference. |
| `ArmFlatten.MergeAdds` | cmd/azure-codegen/main.go:255-294 | Merging adds exactly the source's property and required names, own values win, additionalProperties is taken only where absent, every other field stays. |
| `ArmFlatten.ReadyMeans` | cmd/azure-codegen/main.go:329-362 | An item can be merged exactly when its $ref is #/definitions/ and the name of a definition that is an object without allOf items. |
| `ArmFlatten.FlattensMeans` | cmd/azure-codegen/main.go:305-371 | A definition is flattened exactly when it is an object with non-empty properties of its own and an allOf one of whose items can be merged. |
| `ArmFlatten.FlattenedValues` | cmd/azure-codegen/main.go:327-371 | When a definition is flattened, a property it lacks gets the value of the first mergeable item that has it; the other items stay in order, and allOf goes when none is left. |
| `ArmFlatten.UnionExtends` | cmd/azure-codegen/main.go:266-281 | The required list keeps what it had in front; what is added are strings, each once. |
| `ArmFlatten.Document.MergeFrom` | cmd/azure-codegen/main.go:255-294 | The in-place loops of mergeFrom compute that merge. |
| `ArmFlatten.Document.FlattenDefinition` | cmd/azure-codegen/main.go:305-371 | The body of the pass, merging in place while it decides on the later items, is one step; `changed` is set exactly when it flattens. |
| `ArmFlatten.Document.FlattenAll` | cmd/azure-codegen/main.go:302-375 | The bounded loop over sorted names is the specified iteration. |
| `ArmFlatten.PassFalls` | cmd/azure-codegen/main.go:302-375 | A pass strictly lowers the total number of allOf items, or changes nothing; `changed` tells which. |
| `ArmFlatten.EarlyExitIsFree` | cmd/azure-codegen/main.go:372-374 | Leaving at an unchanged pass gives what all passes would give. |
| `ArmFlatten.ConvergedIsFixed` | cmd/azure-codegen/main.go:372-374 | After an exit through an unchanged pass a second run, of any length, changes nothing. |
| `ArmFlatten.DepthTheorem` | cmd/azure-codegen/main.go:302-375 | Whatever the order of names, after pass k every definition whose local, defined, own-propertied allOf chains have height at most k has no allOf left. |
| `ArmFlatten.FlattenedIffFounded` | cmd/azure-codegen/main.go:302-375 | Exactly what flattening can do: a definition ends without allOf only if its chains are well-founded, and whenever they are if the loop converged. |
| `ArmFlatten.Converges` | cmd/azure-codegen/main.go:302-375 | The loop converges when every well-founded chain has a height below the number of passes. |
| `ArmFlatten.FlattenedExactly` | cmd/azure-codegen/main.go:302-375 | On such definitions those that end without allOf are exactly the well-founded ones, and a further run changes nothing. |
| `ArmFlatten.FewDefinitions` | cmd/azure-codegen/main.go:302-375 | In particular whenever there are fewer definitions than passes, for no well-founded chain is higher than that. |
| `ArmFlatten.StepKeepsInheritance` | cmd/azure-codegen/main.go:305-371 | One definition's flattening keeps, for every definition and around reference cycles, exactly the property and required names it inherits. |
| `ArmFlatten.FlattenKeepsInheritance` | cmd/azure-codegen/main.go:302-375 | So does the whole loop, on every graph and every order. |
| `ArmFlatten.ValuesAreOriginal` | cmd/azure-codegen/main.go:263-267 | Own property values never change, and every inherited value is the original value in some reachable definition. |
| `ArmFlatten.FlattenedIsComplete` | cmd/azure-codegen/main.go:302-375 | A definition whose chains fit the bound ends with exactly the names that were reachable from it. |
| `SmithyCollect.Gen.CollectShape` | internal/codegen/emit/emit.go:211-268 | Terminates on cyclic models; on success keeps the walk's invariant and marks only what the shape reaches; fails only if something unknown or unsupported is reached. Marks, list and outcome are a function of the model: the depth-first walk that visits members by name and keys before values and lists a shape after them, whatever order the maps iterate in. |
| `SmithyCollect.Gen.CollectTargets` | internal/codegen/emit/emit.go:228-266 | The switch visits every reference of the shape, or fails for a reached reason. |
| `SmithyCollect.Gen.CollectRoots` | internal/codegen/emit/emit.go:189-206 | Input, output and errors succeed if and only if they reach nothing bad. |
| `SmithyCollect.ShortNameSpelled` | internal/codegen/smithy/model.go:112-120 | A short name is what stands behind the first # of an ID, or the whole of an ID without one. |
| `SmithyCollect.ShortNameOf` | internal/codegen/smithy/model.go:112-120 | For a namespace without #, the short name of namespace, # and n is n. |
| `SmithyCollect.OnlyMatch` | internal/codegen/smithy/model.go:66-87 | The lookup finds the ID of the only operation shape that spells the name, and nothing if there is none or more than one. |
| `SmithyCollect.MentionsMeans` | internal/codegen/emit/emit.go:211-264 | Which shapes a shape refers to, and which kinds are emitted and which refused. |
| `SmithyCollect.PrimitiveIds` | internal/codegen/emit/emit.go:1010 | The IDs the walk passes over are exactly those that begin with smithy.api#. |
| `SmithyCollect.PrimitiveIntegers` | internal/codegen/emit/emit.go:1012-1038 | Which primitive IDs become which integer types, and no others do. |
| `SmithyCollect.PrimitiveNumbers` | internal/codegen/emit/emit.go:1012-1038 | Which become floating-point types and bool. |
| `SmithyCollect.OtherPrimitives` | internal/codegen/emit/emit.go:1012-1038 | Which become the other types. |
| `SmithyCollect.Gen.CollectOperation` | internal/codegen/emit/emit.go:183-209 | Succeeds if and only if one operation shape, and no other, has an ID that is the name or ends in it behind its first #, and its input, output and errors reach nothing bad; then the roots are the old ones and exactly those. |
| `SmithyCollect.Gen.CollectAll` | internal/codegen/emit/emit.go:183-209 | Over any list of operations: success if and only if each is such, and then the roots are exactly theirs. The list is that of the walk over their roots in order, input before output before errors. |
| `SmithyCollect.ClosedContains` | internal/codegen/emit/emit.go:211-268 | A set closed under references contains all that is reached from it. |
| `SmithyCollect.Gen.ValidNothingBad` | internal/codegen/emit/emit.go:262-266 | In every state that successful calls reach, what was collected reaches nothing unsupported. |
| `SmithyCollect.Gen.ListedFirst` | internal/codegen/emit/emit.go:227-257 | In every such state, for every reference from a listed u to an emitted v, v is listed, and before u unless v itself reaches u; nothing is listed twice. |
| `SmithyCollect.Gen.TypesDeclared` | internal/codegen/emit/emit.go:440-473 | A named type used by a listed shape is declared by its own shape if and only if that is not an intEnum and not under the primitive prefix; its name is declared if and only if that holds or another declared shape has the same short name. |
| `SmithyCollect.Gen.ElementTypesDeclared` | internal/codegen/emit/emit.go:902-993 | The element type of a flattened list is declared by its own shape under the same condition, and, when the list has a primitive ID and is not walked, only if it is reached otherwise; its name likewise. |
| `SmithyCollect.Gen.RootTypesDeclared` | internal/codegen/emit/emit.go:475-480 | The two equivalences for the types operations name. |
| `SmithyCollect.IntEnumUndeclared` | internal/codegen/emit/emit.go:985-989 | The exception is real: a structure with an intEnum field uses a type that is never declared. |
| `UriText.JoinOfSplit` | internal/restxml/uri.go:85-91 | Joining undoes splitting. |
| `UriText.SplitOfJoin` | internal/restxml/uri.go:85-91 | Splitting undoes joining of separator-free pieces, the last piece split on its own. |
| `UriText.UnescapeEncode` | internal/sigv4verifier/canonical.go:112-128 | Percent-decoding undoes awsURIEncode on every byte string, in both modes. |
| `UriText.EncodedByte` | internal/sigv4verifier/canonical.go:112-128 | Letters, digits, - _ . ~ and, where let through, slashes stand for themselves; every other byte is a percent sign and two upper-case digits. |
| `UriText.EncodeAlphabet` | internal/sigv4verifier/canonical.go:112-128 | Encoded text holds only unreserved characters, percent signs and let-through slashes: never & or =. |
| `UriText.EncodeInjective` | internal/sigv4verifier/canonical.go:112-128 | Different byte strings are encoded differently. |
| `UriText.UnescapeJoined` | internal/restxml/uri.go:59-65 | Unescaping the joined greedy tail is joining the unescaped segments; either both fail or neither does. |
| `CanonicalQuery.AwsUriEncode` | internal/sigv4verifier/canonical.go:112-128 | The loop encodes byte by byte. |
| `CanonicalQuery.CanonicalQueryString` | internal/sigv4verifier/canonical.go:133-151 | The loops build the canonical string of the sorted keys and values. |
| `CanonicalQuery.TextDeterminesPairs` | internal/sigv4verifier/canonical.go:142-150 | The joined text determines the list of pairs. |
| `CanonicalQuery.SameBagSamePairs` | internal/sigv4verifier/canonical.go:137-148 | Queries with the same pairs, each as often, list them in the same order. |
| `CanonicalQuery.CanonicalIffSamePairs` | internal/sigv4verifier/canonical.go:133-151 | Two queries have the same canonical string if and only if they have the same multiset of pairs. |
| `CanonicalQuery.CanonicalAscends` | internal/sigv4verifier/canonical.go:133-151 | A canonical string is the text of exactly the query's pairs, each as often, ascending by key and by value under one key. |
| `UriTemplate.MatchURI` | internal/restxml/uri.go:27-83 | The two-index loop computes the segment-wise match. |
| `UriTemplate.TemplateSplits` | internal/restxml/uri.go:28-36 | A printed template, with any query part behind it or none, splits into exactly its segments. |
| `UriTemplate.QueryIgnored` | internal/restxml/uri.go:28-30 | The query part of a template plays no part in the match. |
| `UriTemplate.ExpansionMatches` | internal/restxml/uri.go:27-104 | For every template with distinct labels and a greedy one only last, the escaped expansion matches and binds exactly the decoded pieces; the one exception is a lone label given the empty value. |
| `UriTemplate.MatchIff` | internal/restxml/uri.go:27-83 | Exactly what matches: a path gives some labels if and only if it spells pieces that expand the template and decode to those labels, where a greedy label may also be left out with its slash. |
| `UriTemplate.GreedyMayBeMissing` | internal/restxml/uri.go:52-66 | That last case is real: "/a" matches "/a/{k+}" although every expansion has one slash more. |
| `UriTemplate.EncodedValuesMatch` | internal/restxml/uri.go:27-104 | So percent-encoded values, slashes included in a greedy one, come back as they were. |
| `RequestPaths.CharacterClasses` | internal/restxml/router.go:136-145 | Which characters net/url leaves as they are in a path, and which a request target may hold. |
| `RequestPaths.RoutedLabels` | internal/restxml/router.go:140-145 | A client sends an expansion, free of blanks and control characters, as the request target: the router reads back exactly its values if and only if the text holds no raw question mark, and the request keeps it or no literal and no value holds a percent sign; a lone label with an empty value never comes back. |
| `RequestPaths.DefaultPathsLosePercent` | internal/restxml/router.go:136-145 | For a client that writes paths as net/url does: exactly when no literal and no value holds a percent sign. |
| `RequestPaths.QuestionMarkCut` | internal/restxml/router.go:108-109 | A raw question mark ends the path: the key "x?y" in "/b/x?y" does not come back. |
| `RequestPaths.PercentLost` | internal/restxml/router.go:136-145 | The exception is real: the key "100%", sent as "/b/100%25", does not come back. |
| `RestRouter.SplitTemplate` | internal/restxml/router.go:147-164 | Cuts the template at its first ? and fills the query map, the last of equal keys winning. |
| `RestRouter.PairsReadBack` | internal/restxml/router.go:152-161 | A printed list of keys, with values or bare, is read back: exactly those keys, each with what its last pair says, a bare one with the empty value. |
| `RestRouter.RouteOfTemplate` | internal/restxml/router.go:72-92 | The route of a printed template: its path, and its query without x-id, as if no x-id had been written. |
| `RestRouter.OptionsAdd` | internal/restxml/router.go:75-80 | Each further option adds its headers, query names and forbidden names to the route and nothing else. |
| `RestRouter.MatchMeans` | internal/restxml/router.go:111-128 | A request matches if and only if the verb is the route's, the template takes the path, every fixed query is present with its value if it has one, every required header and query name is present, and no forbidden one is. |
| `RestRouter.CheckQuery` | internal/restxml/router.go:196-221 | True if and only if every required key is present and, where a value is wanted, has it among its values. |
| `RestRouter.CheckHeaders` | internal/restxml/router.go:166-173 | True if and only if every required header is non-empty. |
| `RestRouter.CheckPresent` | internal/restxml/router.go:175-182 | True if and only if every required query is present. |
| `RestRouter.CheckAnyPresent` | internal/restxml/router.go:187-194 | True if and only if some forbidden query is present. |
| `RestRouter.CheckRoute` | internal/restxml/router.go:111-128 | True if and only if all six conditions hold. |
| `RestRouter.StableSortWorks` | internal/restxml/router.go:101-105 | The sort is descending in specificity and keeps the order of equally specific routes. |
| `RestRouter.FirstIsBest` | internal/restxml/router.go:110-130 | The first match of a stably sorted table is the most specific match of what was registered, the earliest among equals; there is none exactly when nothing matches. |
| `RestRouter.BestIsUnique` | internal/restxml/router.go:110-130 | There is at most one such route. |
| `RestRouter.LessIsNotBest` | internal/restxml/router.go:101-105 | If two matching routes are such that one requires every query key, header and query name of the other and more, the other is not dispatched, whatever the order of registration. |
| `RestRouter.ForbiddenDoesNotCount` | internal/restxml/router.go:101-105 | Forbidden queries give no precedence: with others in their place, as long as the same routes match, the same route is the best. |
| `RestRouter.Router.Register` | internal/restxml/router.go:72-92 | The new route goes last in the registered list, without its x-id query; the table's invariant stands. |
| `RestRouter.Router.ServeHTTP` | internal/restxml/router.go:96-134 | In every state that registrations and requests can reach, dispatches the match with the most query keys, required headers and required query names together, the earliest among equals, and none exactly when none matches; never one that asks for less than another match; the lazy re-sort changes no answer. |
| `OciPaths.UploadsFirst` | internal/registry/ocidistribution/parse.go:36-38 | Behind a name the uploads marker is first found at its own place, unless it already occurs inside the name. |
| `OciPaths.OnlyInName` | internal/registry/ocidistribution/parse.go:46-56 | Around a marker and a slash-free digest another marker occurs only in the name with one slash after it. |
| `OciPaths.UploadParsesBack` | internal/registry/ocidistribution/parse.go:26-43 | The text of an upload Location, taken for a decoded path, is parsed into the same repository and ID if and only if the name is non-empty and free of the uploads marker, and the ID is non-empty, does not end in a slash and does not read as a tag listing. |
| `OciPaths.BlobParsesBack` | internal/registry/ocidistribution/parse.go:26-50 | So taken, a blob Location of a slash-free digest is parsed into the same if and only if the name is non-empty, the name plus slash holds no blob marker, and the digest does not begin with "uploads". |
| `OciPaths.ManifestParsesBack` | internal/registry/ocidistribution/parse.go:26-57 | The manifest Location likewise, with both markers kept out of the name plus slash. |
| `OciPaths.NameEndingInBlobs` | internal/registry/ocidistribution/parse.go:46-50 | Keeping the markers out of the name itself is not enough: "a/blobs" loses its blob Location. |
| `OciPaths.TagsListServed` | internal/registry/ocidistribution/parse.go:22-33 | For every name: its path and /tags/list, with or without a slash behind it, asks for its tags, and is refused for the empty name. |
| `OciPaths.UploadStartServed` | internal/registry/ocidistribution/parse.go:35-43 | Its path and /blobs/uploads, with or without a slash, begins an upload if and only if the name is non-empty and free of that marker. |
| `OciPaths.ServedHolds` | internal/registry/ocidistribution/router.go:59-99 | Name, marker and argument of a served path are disjoint pieces of it. |
| `OciPaths.NothingElseServed` | internal/registry/ocidistribution/router.go:59-99 | Nothing outside /v2/ is served, nor a path without one of the four markers, nor one without a name. |
| `OciLocations.PathChars` | internal/registry/ocidistribution/router.go:158-167 | The characters of a URI path, spelled out. |
| `OciLocations.CleanReads` | internal/registry/ocidistribution/router.go:158-167 | A Location is requested as it stands if and only if it consists of path characters without escapes and without dot segments. |
| `OciLocations.UploadLeadsBack` | internal/registry/ocidistribution/router.go:158-167 | A client that follows an upload Location (query and fragment cut, dot segments removed, escapes decoded) is served the same repository and ID if and only if both stand for themselves in a path and the text parses back. |
| `OciLocations.BlobLeadsBack` | internal/registry/ocidistribution/router.go:145-154 | The same equivalence for the blob Location of a slash-free digest. |
| `OciLocations.ManifestLeadsBack` | internal/registry/ocidistribution/router.go:211-213 | The same equivalence for the manifest Location. |
| `OciLocations.UploadLocationsLeadBack` | internal/registry/ocidistribution/router.go:104-132 | From any served upload path, to begin an upload or to go on with one, and for any slash-free ID, following the Location answered leads to that upload if and only if repository and ID stand for themselves in a path. |
| `OciLocations.RangeReads` | internal/registry/ocidistribution/router.go:161-165 | The Range of an upload answer reads, in decimal, 0 to the last byte committed, or to 0 when none is. |
| `OciLocations.QuestionMarkLost` | internal/registry/ocidistribution/router.go:159 | The exception is real: an upload into "a?b" is served, and its Location leads elsewhere. |
| `OciLocations.WriteUploadAccepted` | internal/registry/ocidistribution/router.go:158-167 | Sets exactly the Location, session and range headers and status 202; the Location leads back exactly under that condition. |
| `OciLocations.WriteBlobCreated` | internal/registry/ocidistribution/router.go:151-153 | Sets exactly the Location and digest headers and status 201; likewise for a slash-free digest. |
| `OciLocations.WriteManifestCreated` | internal/registry/ocidistribution/router.go:211-213 | The same for a manifest. |
| `JsonKeys.TopLevelKeyOrder` | cmd/inject-provenance/main.go:228-289 | The nested loops compute the pushdown scan, on arbitrary text. |
| `JsonKeys.BodyEnds` | cmd/inject-provenance/main.go:253-284 | The string loop stops at the closing quote of every grammatical string, whatever its escapes. |
| `JsonKeys.ScanValue` | cmd/inject-provenance/main.go:228-289 | A whole value of any nesting leaves the scanner as it found it. |
| `JsonKeys.ShortBodies` | cmd/inject-provenance/main.go:253-284 | The grammar of strings on one character and on one escape: the eight short escapes and no others. |
| `JsonKeys.NumberParts` | cmd/inject-provenance/main.go:158-161 | The grammar of digits, fractions and exponents that the JSON reader takes, spelled out. |
| `JsonKeys.ScannerFindsNames` | cmd/inject-provenance/main.go:228-289 | On every object text of RFC 8259 the scanner returns exactly the raw top-level member names, in order. |
| `JsonKeys.ScannerFindsNothing` | cmd/inject-provenance/main.go:228-289 | And none for an object without members. |
| `JsonKeys.NamesNeedOpening` | cmd/inject-provenance/main.go:228-289 | Before a brace or a comma no string is a name: a string or an array of one gives none. |
| `JsonInject.OrderKeys` | cmd/inject-provenance/main.go:180-193 | The loop with the seen set computes the ordered list. |
| `JsonInject.OrderedIs` | cmd/inject-provenance/main.go:180-193 | That list is `_provenance` first, then every other key once, in order of first appearance. |
| `JsonInject.InjectInto` | cmd/inject-provenance/main.go:148-220 | The file is left alone exactly when its `_provenance` is already the given one, and is otherwise the printed lines. |
| `JsonInject.MarshalReadsBack` | cmd/inject-provenance/main.go:199-200 | Every printed name is a grammatical string that reads back as the name. |
| `JsonInject.EscapeTable` | cmd/inject-provenance/main.go:199-200 | How the library prints each character of a name: the short escapes, four lower-case digits for the guarded ones, the others as they are. |
| `JsonInject.PairReads` | cmd/inject-provenance/main.go:158-161 | Two surrogate escapes read as the one character UTF-16 splits into them. |
| `JsonInject.UnitReads` | cmd/inject-provenance/main.go:158-161 | Any other unit escape reads as its code unit, or as U+FFFD where that is half of a pair. |
| `JsonInject.DecodedShrinks` | cmd/inject-provenance/main.go:158-161 | Reading a name shortens it when it has an escape and never invents a backslash. |
| `JsonDocument.FoundIffEscapeFree` | cmd/inject-provenance/main.go:202-208 | The lookup by raw spelling finds every top-level value if and only if no top-level name is spelled with an escape; otherwise some name is looked up in vain. |
| `JsonDocument.EscapedNameLost` | cmd/inject-provenance/main.go:202-208 | In the object whose one name is a, spelled as an escape, the value is printed as nothing. |
| `JsonDocument.EscapedNameMistaken` | cmd/inject-provenance/main.go:202-208 | Beside a name that stands for a backslash and an n, the name of the line feed is printed with that name's value. |
| `JsonOutput.OutputIsJsonIff` | cmd/inject-provenance/main.go:148-220 | The file written is a JSON text at all if and only if no top-level name of the source is spelled with an escape. |
| `JsonOutput.JsonIsGapless` | cmd/inject-provenance/main.go:195-214 | In no JSON text is a colon followed by a comma or a closing brace. |
| `JsonDocument.PrintedIsObject` | cmd/inject-provenance/main.go:195-214 | The printed lines are the text of an object. |
| `JsonDocument.PrintedDoc` | cmd/inject-provenance/main.go:195-214 | Reading the printed members gives the document they were printed from. |
| `JsonDocument.InjectKeepsDocument` | cmd/inject-provenance/main.go:148-220 | For escape-free names the new file is a grammatical object with the ordered names, equal to the old document but for `_provenance`; a further run finds it current. |
| `JsonDocument.RunSetsProvenance` | cmd/inject-provenance/main.go:148-220 | After a run on escape-free names the file is an object whose document is the old one with the given provenance in place of whatever `_provenance` said before. |
| `JsonDocument.InjectIntoEmptyObject` | cmd/inject-provenance/main.go:148-220 | An empty object becomes one with `_provenance` alone. |
| `JsonDocument.SecondRefreshFindsAll` | cmd/inject-provenance/main.go:199-208 | A later run with another provenance finds every value if and only if no name holds <, >, &, U+2028 or U+2029, which the printer escapes. |

## Left out

- KafkaServer.Server.ServeConn: does not model context cancellation, write errors or timeouts; the connection is the bytes the peer sent and the bytes written.
- KafkaServer.Server.Dispatch: does not model the handlers other than Produce and Fetch; they are any function that keeps the log contract. Error messages and topic IDs of answers are not part of the answers.
- KafkaServer.Server.FetchPartition: takes the offsets that a refusal does not set from the defaults of the Kafka message format, 0 for the high watermark and -1 for the others; the wire library that sets them is not part of this model.
- KafkaFrame.DecodeRequest: does not model the request bodies; reading and re-encoding them is a parameter, as are the supported versions.
- KafkaRecord.ReadPutRecord: does not model the wire library itself; its reader is written from the documented layout, tolerates bytes after the last header field, and drops the surplus bits of overlong varints as readVarint does.
- KafkaRuns.RunGrows: does not model time; retention is an event between requests instead of a check on the clock inside each backend call, a time that Go calls zero is not replaced by the current one, and the cluster ID is fixed. A log whose offsets would leave int64 takes no more records.
- KafkaRuns.ReadYourWrites: requires that the fetched records fit their batches, as the encoder itself needs, and is about a log that keeps the times it is given; the in-memory backend replaces the one time that Go calls zero.
- RecordRoundTrip.DecodesIffFits: stops at 2^32 bytes a batch, where the wrapped length can become positive again and what happens depends on the checksum function.
- ArmFlatten.ValuesAreOriginal: does not say, over a whole run, which of two inherited definitions wins for a name both have; a deferred item can be merged after a later one, so only the single step has a first winner (`ArmFlatten.FlattenedValues`). The same holds for additionalProperties.
- ArmFlatten.Document.FlattenAll: does not model reading and writing the JSON document, the early return for a document without definitions, or the difference between a missing list and null.
- SmithyCollect.Gen.TypesDeclared: does not model pointer stars, timestamp formats and the views' other contents; only which names are used and declared.
- RestRouter.Router.ServeHTTP: does not model concurrent calls, the handlers' own work or the error response; header names go through a lookup function as Go's canonicalisation would.
- CanonicalQuery.CanonicalIffSamePairs: is about url.Values already parsed; the canonical headers, the path, the string to sign and the signature are not part of this model.
- OciLocations.UploadLeadsBack: is about the default adapter and a client that takes only RFC 3986 path characters; more tolerant clients, the header field's own syntax, and adapters that rename repositories are not part of this model.
- RequestPaths.RoutedLabels: the path escaping of net/url and what a request target may hold are written from their documented behaviour; the library is not part of this model.
- JsonDocument.InjectKeepsDocument: does not model file access, bytes that are not valid UTF-8, text after the first JSON value, which the decoder ignores, or a top-level null.
- The Kafka group handlers, ApiVersions table and error-code maps: one-branch facts.
- Request authentication (HMAC, RSA, JWT) and clocks: library cryptography.
- XML and JSON response writers, floating-point timestamps: formatting only.
- The generated handlers, flag parsing, listeners and interfaces: no algorithm of their own.
- The other passes of the Azure code generator and the regular expressions of the Google one: file loading, map-order dependent renaming, and Go's regular-expression syntax.
