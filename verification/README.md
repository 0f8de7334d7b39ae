# Verification of the Ginger collector's codecs, queues, stores and algorithms

Ginger is a tracing collector that codes its wire formats, its queues and its
stores by hand. This Dafny project models those parts and proves what they are
for: that what is written reads back, that no span or job is lost or doubled
over any run, that the stores are the simple lists they stand for, and that the
algorithms converge. `dafny verify dfyconfig.toml` checks all of it.

The code that changes state is modelled as classes and loops with the same
fields and branches, each proved against a function; the results in the table
are proved about those functions, so each pair carries them over to the code.
The wire formats and texts are stated a second time by their literal bytes and
characters, in modules that know no constant or branch of the codecs, and proved
to be what the codecs read and write.
Concurrent parts are state machines, one step for each atomic step of a
goroutine, and their results hold for every interleaving.

| part | specification and theorems | objects and loops |
|---|---|---|
| protobuf and OTLP | Bytes, Wire, WireDigits, Packed, Messages, OtlpTypes, OtlpFields, OtlpRoundTrip, OtlpTheorems, OtlpBytes, Malformed | Protobuf, OtlpMarshal, OtlpUnmarshal |
| Thrift compact | ThriftTypes, CompactWire, CompactShortest, CompactBools, ThriftBytes | Compact |
| Thrift binary and Jaeger batches | BinaryWire, ThriftBytes, JaegerBatch, JaegerBytes | Binary, JaegerReceiver |
| Influx line protocol | Text, KeyOrder, LineProtocol, LineExact, LineTexts | LineCodec |
| configuration parser | Yaml, YamlFlow, YamlPrinter, YamlRest, YamlBlocks | YamlParser |
| Kafka framing | KafkaWire, KafkaBytes | Kafka |
| trace context | TraceState, TraceContext | the same files |
| worker pool and pipeline | WorkerPool, Pipeline | step machines |
| batching | Batching, BatchAttribution | BatchProcessor |
| in-memory store | ArrivalOrder, SpanWalk | MemoryStore |
| tail sampling | ArrivalOrder, SpanWalk, TailSamplingRuns, TailDecisions | TailSampling |
| clock skew, duplicates, adaptive sampling | ClockSkew, Deduplication, AdaptiveSampling | the same files |

## What the proofs found

Where a promise does not hold of the code, a lemma gives an input that breaks it
and another says exactly when it holds.

- An OTLP scope that has attributes but neither name nor version is dropped by
  the encoder; attributes with equal keys are merged by the decoder
  (OtlpTheorems.RoundTripExact).
- Cut anywhere, a batch is rejected, except between two resources, where it decodes
  to those before (Malformed.CutBatch). The wire type of a known field is not
  looked at (Malformed.WireTypeIgnored).
- An empty Thrift compact map forgets its types, and nothing else is lost
  (CompactWire.ValueReadsBackExactly). A bool field whose value has a call of its
  own is misread if it is false, and its struct ends there; if it is true, the
  struct reads back exactly before a true bool of one of seven pairs of ids
  (CompactBools.SeparateBoolExactly).
- A point comes back from its line exactly if no name or string holds a line feed,
  its escaped names are closed for the separators that the scanner looks for
  where they stand, and its measurement starts neither with `#`, which makes the
  line a comment, nor with white space that is trimmed
  (LineExact.ComesBackExactly); a tag value that is a backslash is not closed
  (LineExact.BackslashLosesFields).
- A batch is exported under the resource and scope in force when it is flushed.
  Over every run, spans go out under their own exactly if these are in force then,
  so for example if headers change only while nothing is pending
  (BatchAttribution.EveryRunAttribution); two resources in one call are mixed up
  (Batching.WrongResource).
- Shutdown of the tail sampler waits no less than any other pass, so it forgets
  young traces (TailSamplingRuns.ShutdownDecidesAll).
- A worker pool whose context is cancelled from outside can accept a job and
  never run it (WorkerPool.OutsideCancelLosesAJob). A send on the closed channel
  is possible exactly if a submitter is between its check and its send when
  Close runs (WorkerPool.PanicsExactlyWhenBusy).
- The clock-skew limit is compared as a signed duration: it is missed exactly by
  the spans that start 2^63 ns or more before their parent
  (ClockSkew.LimitMissedExactly), so it is kept for all traces exactly within a
  shorter stretch of time (ClockSkew.LimitKeptExactly). One pass settles a list for
  all times exactly if no span is listed before a parent that has a parent of its
  own in the list, other than the two (ClockSkew.OnePassExactly).
- Of duplicate spans, one with both the most events and the most attributes is
  kept exactly if there is one (Deduplication.TopKeptExactly); without one the
  order of the spans decides what is kept (Deduplication.OrderMattersExactly).
- Trace flags from 0x80 on are rejected on extract because the high hexadecimal
  digit is shifted in eight signed bits (TraceContext.TraceparentReads), and an
  empty trace state is replaced by a tracestate header the carrier held before
  (TraceContext.ExtractAfterInject).
- All messages of a Kafka response are delivered exactly if none has an empty value;
  offsets count all the same (KafkaWire.AllDeliveredExactly, KafkaWire.NextIsLargest).
- The first line behind a configuration tree is dropped without an error, with all
  that follows, exactly if no block that is open there takes it
  (YamlRest.LineDroppedExactly); a line that is taken is kept in its block, or
  rejected with the error of its value (YamlRest.LineTaken).
- The text of a literal block is kept exactly if no line of it begins with a space or
  `#` or ends in a blank, and it does not begin or end with blank lines
  (YamlRest.LiteralKeptExactly).

## Conventions

- Strings are byte sequences in the binary codecs. In the line protocol, the
  configuration parser and the trace context they are sequences of characters:
  all special characters are ASCII, and sizes in bytes are those of UTF-8.
- Doubles are 64-bit patterns in the binary codecs, the texts of FormatFloat in
  the line protocol, and reals in adaptive sampling.
- 64-, 32- and 16-bit wrap-around, truncation and sign are written out where the
  code has them. Bit operations are written as arithmetic.
- Times and clock readings, checksums, sampling policies and query predicates are
  parameters; a locked section is one step.

## Model

| member | source | states |
|---|---|---|
| Bytes.BigEndianInverse | internal/codec/thrift/binary.go:45-59 | big-endian digits read back |
| Bytes.NumbersAre | internal/codec/thrift/binary.go:45-59 | two, four and eight big-endian bytes by their digits |
| Bytes.LittleEight | internal/codec/protobuf/encoder.go:73-84 | eight little-endian bytes by their digits |
| Wire.TagRoundTrip | internal/codec/protobuf/wire.go:34-41 | every tag splits again into its field number and wire type |
| Wire.RawReadsBack | internal/codec/protobuf/decoder.go:40-56 | a number that fits the allowed count of seven-bit groups reads back and leaves exactly the rest |
| Wire.VarintReadsBack | internal/codec/protobuf/decoder.go:40-56 | any 64-bit varint, wherever it stands in a buffer, reads back; the cursor stops right behind it |
| Wire.TagReadsBack | internal/codec/protobuf/decoder.go:158-165 | a tag written for a number and wire type reads back as that pair |
| Wire.Fixed64ReadsBack | internal/codec/protobuf/decoder.go:90-104 | eight little-endian bytes read back as the number they were written for |
| Wire.DelimitedReadsBack | internal/codec/protobuf/decoder.go:125-137 | a length-prefixed record reads back whole, in buffers below 2^63 bytes |
| Wire.SkipMoves | internal/codec/protobuf/decoder.go:168-198 | skipping depends only on the bytes that are skipped, not on where they stand |
| Wire.OrIsSum | internal/codec/protobuf/decoder.go:40-56 | or-ing a shifted group into clear bits, as the loop does, is the sum used in the model |
| Wire.ZigzagInverse | internal/codec/protobuf/encoder.go:58-60 | zigzag and its inverse cancel for every int64 |
| Wire.Fixed32ReadsBack | internal/codec/protobuf/decoder.go:77-87 | four little-endian bytes read back as the number they were written for |
| WireDigits.VarintWritten | internal/codec/protobuf/encoder.go:44-50 | a number is written in as few groups of seven bits as it needs, the lowest first, all but the last with the top bit |
| WireDigits.VarintRead | internal/codec/protobuf/decoder.go:40-56 | up to ten groups are read, more than needed or not, as their value modulo 2^64 |
| WireDigits.VarintFails | internal/codec/protobuf/decoder.go:40-56 | a read overflows if and only if ten bytes have the top bit, and underflows if and only if all bytes up to the end have it, being fewer |
| WireDigits.FixedRead | internal/codec/protobuf/decoder.go:77-104 | fixed numbers are read with these weights from any bytes, or not at all |
| WireDigits.SkipIs | internal/codec/protobuf/decoder.go:168-198 | what is passed over for each of the eight wire types |
| WireDigits.CountedRead | internal/codec/protobuf/decoder.go:125-137 | what a length prefix of any size leads to |
| Packed.PackedReadsBack | internal/codec/protobuf/decoder.go:210-258 | every list of numbers reads back from its packed field, as varints or in either fixed width, and leaves exactly the rest |
| Packed.NumbersReadBack | internal/codec/protobuf/decoder.go:215-223 | the numbers of a packed record read back to its end |
| Protobuf.Encoder.WriteVarint | internal/codec/protobuf/encoder.go:44-50 | the loop appends the base-128 groups of the value and nothing else |
| Protobuf.Encoder.WriteFixed64 | internal/codec/protobuf/encoder.go:73-84 | appends the eight little-endian digits |
| Protobuf.Encoder.WriteBytes | internal/codec/protobuf/encoder.go:97-106 | appends the length and then the bytes |
| Protobuf.Encoder.WriteTagSignedVarint | internal/codec/protobuf/encoder.go:120-123 | appends a varint field of the two's complement of the value |
| Protobuf.Encoder.WriteTagBytes | internal/codec/protobuf/encoder.go:156-165 | appends a delimited field |
| Protobuf.Encoder.EncodeMessage | internal/codec/protobuf/encoder.go:188-193 | appends a message field that holds what the inner encoder collected |
| Protobuf.Encoder.WriteTagBool | internal/codec/protobuf/encoder.go:168-174 | appends a varint field of 1 or 0 |
| Protobuf.Decoder.ReadVarint | internal/codec/protobuf/decoder.go:40-56 | the loop over at most ten groups returns the value modulo 2^64 and the cursor behind it, or the error that the bytes call for |
| Protobuf.Decoder.ReadFixed64 | internal/codec/protobuf/decoder.go:90-104 | reads eight bytes as one number, or underflows |
| Protobuf.Decoder.ReadField | internal/codec/protobuf/decoder.go:158-165 | reads a tag and splits it |
| Protobuf.Encoder.constructor | internal/codec/protobuf/encoder.go:21-25 | starts with an empty buffer |
| Protobuf.Encoder.WriteSignedVarint | internal/codec/protobuf/encoder.go:53-55 | appends the varint of the two's complement |
| Protobuf.Encoder.WriteTag | internal/codec/protobuf/encoder.go:109-111 | appends the tag |
| Protobuf.Encoder.WriteTagVarint | internal/codec/protobuf/encoder.go:114-117 | appends a varint field |
| Protobuf.Encoder.WriteTagFixed64 | internal/codec/protobuf/encoder.go:138-141 | appends a fixed field |
| Protobuf.Decoder.constructor | internal/codec/protobuf/decoder.go:25-27 | starts at the beginning of the buffer |
| Protobuf.Decoder.ReadSignedVarint | internal/codec/protobuf/decoder.go:59-65 | reads a varint as a two's complement number |
| Protobuf.Decoder.ReadBool | internal/codec/protobuf/decoder.go:149-155 | reads a varint as whether it is not 0 |
| Protobuf.Encoder.WriteZigzag | internal/codec/protobuf/encoder.go:58-60 | appends the zigzag varint |
| Protobuf.Encoder.WriteFixed32 | internal/codec/protobuf/encoder.go:63-70 | appends the four little-endian digits |
| Protobuf.Encoder.EncodePacked | internal/codec/protobuf/encoder.go:196-232 | the loop collects the numbers in an inner encoder and writes them as one field, or nothing for an empty list |
| Protobuf.Decoder.ReadZigzag | internal/codec/protobuf/decoder.go:68-74 | reads a zigzag varint |
| Protobuf.Decoder.ReadFixed32 | internal/codec/protobuf/decoder.go:77-87 | reads four bytes as one number, or underflows |
| Protobuf.Decoder.ReadPacked | internal/codec/protobuf/decoder.go:210-258 | the loop over the inner decoder returns all numbers, or the first error |
| Protobuf.Decoder.ReadBytes | internal/codec/protobuf/decoder.go:125-137 | returns the counted bytes, underflow, or, where the sum of cursor and length wraps and the slice panics, an outcome of its own |
| Protobuf.Decoder.SkipField | internal/codec/protobuf/decoder.go:168-198 | moves exactly past a value of the wire type, or fails as reading it would; a length whose sum with the cursor wraps ends in an outcome of its own |
| Messages.FieldReadsBack | internal/codec/protobuf/decoder.go:158-207 | for any schema, a field with any nested messages reads back as the tree without its unknown fields, and the cursor stops behind it |
| Messages.TreeReadsBack | internal/codec/protobuf/encoder.go:188-193 | for any schema and tree, with unknown fields anywhere at any depth, decoding yields the tree without them |
| Messages.DecodeConcat | internal/protocol/otlp/unmarshal.go:10-36 | two decodable byte strings, concatenated, decode to the fields of the first and then of the second |
| Messages.AlienInserted | internal/codec/protobuf/decoder.go:168-198 | an unknown field between two decodable parts changes nothing |
| Messages.UnknownNumberIsAlien | internal/codec/protobuf/decoder.go:168-198 | an unassigned number with any of the four wire types and any payload is skipped as one field |
| OtlpTypes.Set | internal/protocol/otlp/attributes.go:113-121 | the search-and-replace loop computes the ordered-map update |
| OtlpTypes.WithKeyDistinct | internal/protocol/otlp/attributes.go:113-121 | Set keeps keys distinct |
| OtlpTypes.WithKeysExact | internal/protocol/otlp/attributes.go:106-121 | adding pairs one by one gives the list back if and only if its keys are distinct |
| OtlpTypes.SetThenGet | internal/protocol/otlp/attributes.go:113-131 | after Set, Get of the key finds the new value and Get of any other key what it found before |
| OtlpMarshal.Marshal | internal/protocol/otlp/marshal.go:82-95 | returns the encoding of the field tree of the batch, with default fields omitted |
| OtlpMarshal.MarshalResourceSpans | internal/protocol/otlp/marshal.go:97-108 | appends exactly the fields of the resource spans |
| OtlpMarshal.MarshalScopeSpans | internal/protocol/otlp/marshal.go:110-127 | appends the scope only if it has a name or a version, then every span |
| OtlpMarshal.MarshalSpan | internal/protocol/otlp/marshal.go:129-174 | appends exactly the fields of the span, in the order of the code |
| OtlpMarshal.MarshalSpanEvent | internal/protocol/otlp/marshal.go:176-183 | appends exactly the fields of the event |
| OtlpMarshal.MarshalSpanLink | internal/protocol/otlp/marshal.go:185-195 | appends exactly the fields of the link |
| OtlpMarshal.MarshalAttributes | internal/protocol/otlp/marshal.go:197-206 | the loop appends one message field for each attribute |
| OtlpMarshal.MarshalAnyValue | internal/protocol/otlp/marshal.go:208-240 | the recursion appends the one place that the type tag names, with arrays and lists nested to any depth |
| OtlpUnmarshal.Unmarshal | internal/protocol/otlp/unmarshal.go:10-36 | on arbitrary bytes, returns what the decoded field tree folds to, or the first error |
| OtlpUnmarshal.UnmarshalResourceSpans | internal/protocol/otlp/unmarshal.go:38-73 | folds the fields of a resource-spans message over the empty value |
| OtlpUnmarshal.UnmarshalResource | internal/protocol/otlp/unmarshal.go:75-100 | folds the fields of a resource; attributes are set one by one |
| OtlpUnmarshal.UnmarshalScopeSpans | internal/protocol/otlp/unmarshal.go:102-137 | folds the fields of a scope-spans message |
| OtlpUnmarshal.UnmarshalScope | internal/protocol/otlp/unmarshal.go:139-169 | folds the fields of a scope |
| OtlpUnmarshal.UnmarshalSpan | internal/protocol/otlp/unmarshal.go:171-277 | folds the sixteen fields of a span; later ones replace or append as in the code |
| OtlpUnmarshal.UnmarshalSpanEvent | internal/protocol/otlp/unmarshal.go:279-315 | folds the fields of an event |
| OtlpUnmarshal.UnmarshalSpanLink | internal/protocol/otlp/unmarshal.go:317-363 | folds the fields of a link |
| OtlpUnmarshal.UnmarshalStatus | internal/protocol/otlp/unmarshal.go:365-389 | folds the fields of a status |
| OtlpUnmarshal.UnmarshalKeyValue | internal/protocol/otlp/unmarshal.go:391-419 | folds the fields of a pair |
| OtlpUnmarshal.UnmarshalAnyValue | internal/protocol/otlp/unmarshal.go:421-474 | folds the fields of a value; terminates because nested messages are shorter |
| OtlpUnmarshal.UnmarshalArrayValue | internal/protocol/otlp/unmarshal.go:476-501 | collects the elements of an array in order |
| OtlpUnmarshal.UnmarshalKvListValue | internal/protocol/otlp/unmarshal.go:503-528 | collects the pairs of a list in order |
| OtlpUnmarshal.OneField | internal/protocol/otlp/unmarshal.go:14-33 | handling one field and then the rest is the fold of all fields: what makes every loop above right |
| OtlpRoundTrip.AnyRoundTrip | internal/protocol/otlp/unmarshal.go:421-474 | an attribute value, nested to any depth, decodes from its fields to its normal form |
| OtlpRoundTrip.SpanRoundTrip | internal/protocol/otlp/unmarshal.go:171-277 | a span decodes from its fields to its normal form |
| OtlpRoundTrip.ScopeSpansRoundTrip | internal/protocol/otlp/marshal.go:110-127 | a scope with its spans does; an attributed scope without name and version comes back empty |
| OtlpTheorems.RoundTrip | internal/protocol/otlp/marshal.go:82-240 | for every batch whose encoding is below 2^63 bytes, decoding the encoding gives its normal form |
| OtlpTheorems.RoundTripExact | internal/protocol/otlp/marshal.go:82-240 | it gives the batch itself if and only if attribute keys are distinct, no attributed scope lacks both name and version, and no value carries leftovers of another type |
| OtlpTheorems.NormExact | internal/protocol/otlp/attributes.go:106-121 | the normal form changes nothing exactly for those batches |
| OtlpTheorems.UnmarshalConcat | internal/protocol/otlp/unmarshal.go:10-36 | two decodable encodings put one after the other decode to the resource spans of both, in order |
| OtlpTheorems.UnknownFieldsIgnored | internal/codec/protobuf/decoder.go:168-198 | unknown fields at any depth of an encoded batch do not change what it decodes to |
| OtlpTheorems.UnknownFieldInserted | internal/codec/protobuf/decoder.go:168-198 | the same on bytes: any unknown field between two decodable parts |
| OtlpBytes.UnmarshalReadsBytes | internal/protocol/otlp/unmarshal.go:10-528 | for every message and attribute value the members by their literal tags, fixed 64-bit numbers, varints and lengths, in any order and any number: bytes that hold them decode to what they mean, later ones replacing or adding to earlier ones |
| OtlpBytes.MarshalWritesBytes | internal/protocol/otlp/marshal.go:82-240 | the output of Marshal is exactly these bytes for every batch: which members, in which order, under which literal tags |
| Malformed.CutFieldFails | internal/codec/protobuf/decoder.go:40-198 | a field that is cut anywhere, in its tag, its length or its value, is an underflow |
| Malformed.CutMessage | internal/codec/protobuf/decoder.go:40-207 | for any schema, a message that is cut between two fields gives those before, and one that is cut anywhere else is an underflow |
| Malformed.CutBatch | internal/protocol/otlp/unmarshal.go:10-36 | the output of Marshal, cut anywhere, decodes if and only if it is cut between two resources, and then to those before; else it is rejected |
| Malformed.WireTypeIgnored | internal/protocol/otlp/unmarshal.go:14-33 | a field that the message type knows is read by its number alone, whatever wire type its tag has |
| CompactWire.TypesInverse | internal/codec/thrift/types.go:70-127 | mapping a type to the compact protocol and back gives it again exactly if it is a type that has values |
| CompactWire.HeaderReadsBack | internal/codec/thrift/compact.go:256-288 | a field header reads back for every pair of ids, ascending, descending, or wrapped in int16, delta-coded or not |
| CompactWire.ListHeaderReadsBack | internal/codec/thrift/compact.go:290-305 | a list header reads back for every type and every size from 0 to 2^31-1, short form or long |
| CompactWire.NegativeListHeader | internal/codec/thrift/compact.go:111-119 | a header for a negative size never reads back |
| CompactWire.MapHeaderReadsBack | internal/codec/thrift/compact.go:308-322 | a map header reads back for every int32 size; size 0 loses the types |
| CompactWire.ScalarReadsBack | internal/codec/thrift/compact.go:172-254 | every scalar value reads back and leaves exactly the rest |
| CompactWire.ValueReadsBack | internal/codec/thrift/compact.go:77-331 | every typed tree of structs, lists, sets, maps, bool fields and scalars reads back in place, except that empty maps forget their types |
| CompactWire.ValueReadsBackExactly | internal/codec/thrift/compact.go:122-129 | a tree comes back unchanged if and only if it holds no empty map at any depth |
| CompactWire.FieldsReadBack | internal/codec/thrift/compact.go:256-288 | the fields of a struct read back after any last id, up to the stop marker |
| CompactWire.ItemsReadBack | internal/codec/thrift/compact.go:290-305 | the elements of a list read back |
| CompactWire.PairsReadBack | internal/codec/thrift/compact.go:307-322 | the pairs of a map read back |
| CompactWire.CanonExact | internal/codec/thrift/compact.go:122-129 | what is lost is lost exactly with empty maps |
| CompactShortest.HeaderShortest | internal/codec/thrift/compact.go:77-87 | whatever bytes read as a field header, the encoder writes that header in as few or fewer |
| CompactShortest.ValueShortest | internal/codec/thrift/compact.go:12-160 | whatever bytes decode to a tree, in forms the encoder uses or not, the encoder writes the tree in as few or fewer |
| CompactShortest.FieldsShortest | internal/codec/thrift/compact.go:12-160 | the same for the fields of a struct |
| CompactBools.SeparateBoolMisread | internal/codec/thrift/compact.go:77-87 | a bool field written with WriteFieldBegin and WriteBool, whatever follows: it reads as true, a false value byte ends the struct there, and a true one is read as a header |
| CompactBools.TrueReads | internal/codec/thrift/compact.go:257-288 | what is read behind such a true, whatever follows: one more true bool, whose id is the zigzag varint behind the value byte |
| CompactBools.AfterTrueExactly | internal/codec/thrift/compact.go:257-288 | behind such a true, properly written fields read back if and only if the next is a true bool, with ids -(9d+1) and -(8d+1) for d from 1 to 7 |
| CompactBools.SeparateBoolExactly | internal/codec/thrift/compact.go:77-87 | a struct with such a field between any others reads back if and only if its value is true and the next field is of one of those seven pairs; with a false it is read as true and the struct ends there |
| Compact.Encoder.WriteFieldBegin | internal/codec/thrift/compact.go:77-87 | appends the header relative to the top of the stack and replaces the top by the id |
| Compact.Encoder.WriteFieldBeginBool | internal/codec/thrift/compact.go:90-103 | the same with the value in the header |
| Compact.Encoder.WriteListBegin | internal/codec/thrift/compact.go:111-119 | appends the header for any int32 size, also a negative one |
| Compact.Encoder.WriteMapBegin | internal/codec/thrift/compact.go:122-129 | appends one zero byte for size 0, else size and types |
| Compact.Encoder.WriteVarint | internal/codec/thrift/compact.go:141-147 | the loop appends the base-128 groups |
| Compact.Encoder.WriteStructEnd | internal/codec/thrift/compact.go:137-139 | pops the top |
| Compact.Decoder.ReadBool | internal/codec/thrift/compact.go:173-185 | takes the pending bool and clears it, or reads a byte |
| Compact.Decoder.ReadFieldBegin | internal/codec/thrift/compact.go:257-288 | returns type and id, moves the top of the stack unless the byte was the stop marker, and leaves a bool pending exactly for the two bool types |
| Compact.Decoder.ReadListBegin | internal/codec/thrift/compact.go:291-305 | reads the header in both forms |
| Compact.Decoder.ReadMapBegin | internal/codec/thrift/compact.go:308-322 | reads the header in both forms |
| Compact.Decoder.ReadVarint | internal/codec/thrift/compact.go:334-350 | the loop returns the value modulo 2^64; an overlong varint is an underflow |
| Compact.WriteValue | internal/codec/thrift/compact.go:77-139 | a client that writes any tree: the bytes are those of the tree and the stack is as before |
| Compact.ReadValue | internal/codec/thrift/compact.go:257-331 | a client that reads any bytes by type: on success the stack is as before and no bool is pending |
| Compact.ReadFields | internal/codec/thrift/compact.go:257-288 | the struct loop: every field is read against the id of the one before |
| Compact.RoundTrip | internal/codec/thrift/compact.go:77-331 | encoder and decoder objects together return every tree, with all bytes consumed and both stacks at their start |
| Compact.Encoder.constructor | internal/codec/thrift/compact.go:12-14 | starts with an empty buffer and one zero on the stack |
| Compact.Encoder.Reset | internal/codec/thrift/compact.go:17-21 | returns to that state from any depth |
| Compact.Encoder.WriteBool | internal/codec/thrift/compact.go:27-33 | appends the byte of a bool that is not a field |
| Compact.Encoder.WriteI16 | internal/codec/thrift/compact.go:41-43 | appends the zigzag varint |
| Compact.Encoder.WriteI32 | internal/codec/thrift/compact.go:46-48 | appends the zigzag varint |
| Compact.Encoder.WriteI64 | internal/codec/thrift/compact.go:51-53 | appends the zigzag varint |
| Compact.Encoder.WriteDouble | internal/codec/thrift/compact.go:56-62 | appends eight little-endian bytes |
| Compact.Encoder.WriteString | internal/codec/thrift/compact.go:65-74 | appends the length and then the bytes |
| Compact.Encoder.WriteZigzag | internal/codec/thrift/compact.go:149-151 | appends the zigzag varint |
| Compact.Decoder.constructor | internal/codec/thrift/compact.go:162-164 | starts with one zero on the stack and no bool pending |
| Compact.Decoder.ReadByte | internal/codec/thrift/compact.go:188-195 | reads a byte or underflows |
| Compact.Decoder.ReadI16 | internal/codec/thrift/compact.go:198-201 | reads a zigzag varint and keeps its low 16 bits |
| Compact.Decoder.ReadI32 | internal/codec/thrift/compact.go:204-207 | reads a zigzag varint and keeps its low 32 bits |
| Compact.Decoder.ReadZigzag | internal/codec/thrift/compact.go:352-358 | reads a zigzag varint |
| Compact.Decoder.ReadDouble | internal/codec/thrift/compact.go:215-225 | reads eight little-endian bytes |
| Compact.Decoder.ReadStructBegin | internal/codec/thrift/compact.go:325-327 | pushes a zero |
| Compact.Decoder.ReadStructEnd | internal/codec/thrift/compact.go:330-332 | pops the top |
| Compact.WriteFields | internal/codec/thrift/compact.go:77-108 | a client that writes the fields of a struct: only the top of the stack changes |
| Compact.Decoder.ReadString | internal/codec/thrift/compact.go:228-239 | returns the counted bytes, underflow, or, where the sum of cursor and length wraps and the slice panics, an outcome of its own |
| ThriftBytes.BinaryFields | internal/codec/thrift/binary.go:31-102 | the bytes of any struct in the binary protocol, with literal type codes, headers, numbers and lengths |
| ThriftBytes.CompactFields | internal/codec/thrift/compact.go:27-159 | the same in the compact protocol, with its own codes, short and long headers, and bools in their headers |
| ThriftBytes.CompactCodes | internal/codec/thrift/types.go:70-127 | the compact code of every type, and the type of every code |
| ThriftBytes.LongFormsRead | internal/codec/thrift/compact.go:256-305 | long field and list headers are read whether or not the short form would do |
| ThriftBytes.NumbersRead | internal/codec/thrift/binary.go:142-180 | what is read as a number from any bytes has these bytes; what does not fit leaves the cursor |
| ThriftBytes.StringRead | internal/codec/thrift/binary.go:183-194 | what a string read gives for every length on the wire, negative or too long |
| ThriftBytes.CompactStringRead | internal/codec/thrift/compact.go:228-254 | what a string read of the compact protocol gives for every length on the wire |
| BinaryWire.StringReadsBack | internal/codec/thrift/binary.go:183-194 | a string shorter than 2^31 reads back behind its signed 32-bit length |
| BinaryWire.FieldHeaderReadsBack | internal/codec/thrift/binary.go:212-226 | a field header reads back for every type and id |
| BinaryWire.Skip | internal/protocol/jaeger/receiver.go:192-231 | on arbitrary bytes, for every type: the cursor ends between where it was and the end of the buffer, or a negative length panicked; unread bytes are the measure of the recursion |
| BinaryWire.SkipFields | internal/protocol/jaeger/receiver.go:217-224 | the struct branch ends on arbitrary bytes |
| BinaryWire.SkipsExactly | internal/protocol/jaeger/receiver.go:192-231 | skipping any well-formed value of any type, nested to any depth, stops exactly at its end |
| BinaryWire.SkipsList | internal/protocol/jaeger/receiver.go:206-210 | a list is skipped element by element, exactly |
| BinaryWire.SkipsMap | internal/protocol/jaeger/receiver.go:211-216 | a map is skipped pair by pair, exactly |
| Binary.Encoder.WriteI16 | internal/codec/thrift/binary.go:45-47 | appends two big-endian digits, also of a negative number |
| Binary.Encoder.WriteI32 | internal/codec/thrift/binary.go:50-52 | appends four |
| Binary.Encoder.WriteString | internal/codec/thrift/binary.go:69-78 | appends the length cut to 32 bits, then the bytes |
| Binary.Encoder.WriteFieldBegin | internal/codec/thrift/binary.go:81-84 | appends type and id |
| Binary.Encoder.WriteMapBegin | internal/codec/thrift/binary.go:98-102 | appends both types and the size |
| Binary.Decoder.ReadI16 | internal/codec/thrift/binary.go:142-149 | reads a signed big-endian number or leaves the cursor |
| Binary.Decoder.ReadI32 | internal/codec/thrift/binary.go:152-160 | the same for four bytes |
| Binary.Decoder.ReadString | internal/codec/thrift/binary.go:183-194 | returns the counted bytes, underflow, or panics on a negative length that passes the bounds check |
| Binary.Decoder.ReadFieldBegin | internal/codec/thrift/binary.go:212-226 | returns type and id; after a failure the cursor is where the code leaves it |
| Binary.Decoder.ReadListBegin | internal/codec/thrift/binary.go:229-239 | the same for a list header |
| Binary.Decoder.ReadMapBegin | internal/codec/thrift/binary.go:242-256 | the same for a map header |
| Binary.SkipThriftField | internal/protocol/jaeger/receiver.go:192-231 | the recursive method with its loops leaves the cursor where the specification says, and terminates |
| Binary.SkipEach | internal/protocol/jaeger/receiver.go:206-210 | the loop over a list or set |
| Binary.SkipStruct | internal/protocol/jaeger/receiver.go:217-224 | the loop over the fields of a struct |
| Binary.Encoder.WriteBool | internal/codec/thrift/binary.go:31-37 | appends the byte of a bool |
| Binary.Encoder.WriteI64 | internal/codec/thrift/binary.go:55-59 | appends the digits of the 64-bit pattern |
| Binary.Encoder.WriteListBegin | internal/codec/thrift/binary.go:92-95 | appends type and size |
| Binary.Decoder.ReadByte | internal/codec/thrift/binary.go:132-139 | reads a byte or leaves the cursor |
| Binary.Decoder.ReadU64 | internal/codec/thrift/binary.go:173-180 | reads eight bytes or leaves the cursor |
| Binary.Decoder.ReadI64 | internal/codec/thrift/binary.go:163-170 | the same, signed |
| Binary.SkipEachPair | internal/protocol/jaeger/receiver.go:211-216 | the loop over the pairs of a map |
| JaegerBatch.BatchReads | internal/protocol/jaeger/receiver.go:71-108 | a batch tree, whatever unknown fields it holds, decodes to its meaning |
| JaegerBatch.SpanReads | internal/protocol/jaeger/receiver.go:133-190 | a span tree does |
| JaegerBatch.ProcessReads | internal/protocol/jaeger/receiver.go:110-131 | a process tree does |
| JaegerBatch.SameBatch | internal/protocol/jaeger/receiver.go:71-190 | trees with the same known fields mean the same batch |
| JaegerBatch.UnknownFieldsIgnored | internal/protocol/jaeger/receiver.go:71-231 | two batches that differ only in unknown fields at batch, process or span level, nested to any depth, decode to the same batch |
| JaegerBatch.EveryBatchReadsBack | internal/protocol/jaeger/receiver.go:71-190 | for every batch with names below 2^31 bytes there is an encoding that decodes to it: both halves of every trace id, and all times |
| JaegerBatch.BatchFieldReads | internal/protocol/jaeger/receiver.go:84-102 | a field of a batch tree decodes to its effect on the batch |
| JaegerBatch.SpanTreesMean | internal/protocol/jaeger/receiver.go:133-190 | spans are recovered from their trees, in order |
| JaegerBytes.BatchTextReads | internal/protocol/jaeger/receiver.go:71-190 | for the literal members of batches, processes and spans, in any order and any number, with other fields of any type in between: the receiver reads what they mean, of a repeated one the last |
| JaegerReceiver.DecodeThriftBatch | internal/protocol/jaeger/receiver.go:71-108 | on arbitrary bytes, computes what the specification of the decoder says |
| JaegerReceiver.DecodeThriftProcess | internal/protocol/jaeger/receiver.go:110-131 | the same for the process loop |
| JaegerReceiver.DecodeThriftSpan | internal/protocol/jaeger/receiver.go:133-190 | the same for the span loop |
| JaegerReceiver.DecodeBatchField | internal/protocol/jaeger/receiver.go:84-105 | the dispatch on the field id, with the loop over the spans; a negative size panics |
| JaegerReceiver.PutBytes | internal/protocol/jaeger/receiver.go:144-167 | the loop that spreads a signed number over eight bytes writes its big-endian form |
| JaegerReceiver.DecodeSpanField | internal/protocol/jaeger/receiver.go:143-184 | the dispatch on the field id of a span |
| Text.EscapePass | internal/codec/influxlp/encoder.go:136-147 | one more replacement pass escapes one more character and spoils no earlier one |
| Text.UnescapePass | internal/codec/influxlp/decoder.go:232-257 | one replacement pass takes back the escape of one character, whatever backslashes surround it |
| Text.FindPasses | internal/codec/influxlp/decoder.go:192-214 | the scanner passes over text whose separators are all quoted or escaped |
| Text.EscapedClosed | internal/codec/influxlp/decoder.go:192-214 | escaping hides every separator of a text without quotes and backslashes |
| Text.QuotedClosed | internal/codec/influxlp/decoder.go:192-214 | a quoted, escaped string hides whatever it holds |
| Text.SplitJoin | internal/codec/influxlp/decoder.go:217-230 | parts that hide the separator are split where they were joined |
| Text.IntReadsBack | internal/codec/influxlp/decoder.go:166-172 | decimal text of any int64 parses back |
| Text.FindsExactly | internal/codec/influxlp/decoder.go:192-214 | the scanner finds a separator at the end of a text if and only if the text is closed for it |
| Text.PieceIs | internal/codec/influxlp/decoder.go:232-257 | a piece that begins like an escaped text with a separator behind it, and has its characters but for backslashes, is the escaped text of it or of a shorter one |
| KeyOrder.SortedIsSort | internal/codec/influxlp/encoder.go:48-65 | sorting rearranges the items into key order |
| KeyOrder.SortIsUnique | internal/codec/influxlp/encoder.go:50-65 | with distinct keys there is only one sorted arrangement, so an unstable sort gives this one |
| KeyOrder.SortedStays | internal/codec/influxlp/encoder.go:50-65 | sorting leaves a sorted list as it is, equal keys in their order |
| KeyOrder.LessExactly | internal/codec/influxlp/encoder.go:48-65 | strings are ordered by the first place where they differ, and a prefix comes first |
| LineProtocol.MeasurementInverse | internal/codec/influxlp/encoder.go:136-140 | for every string: the passes of the escape are one pass, and the unescape passes undo them |
| LineProtocol.NameInverse | internal/codec/influxlp/encoder.go:142-147 | the same for the three passes of tag keys, tag values and field keys |
| LineProtocol.StringInverse | internal/codec/influxlp/decoder.go:253-257 | the two unescape passes for string values undo the two escape passes, for every string of quotes and backslashes |
| LineProtocol.ValueReadsBack | internal/codec/influxlp/decoder.go:144-189 | every field value reads back with its type |
| LineProtocol.PlainNamesHidden | internal/codec/influxlp/encoder.go:134-155 | escaping hides every separator in names without quotes and backslashes, wherever they stand |
| LineProtocol.TagsReadBack | internal/codec/influxlp/decoder.go:109-123 | tags read back in order if their keys are closed for comma, equals sign and space and their values for comma and space |
| LineProtocol.FieldsReadBack | internal/codec/influxlp/decoder.go:125-142 | fields read back in order if their keys are closed for the three |
| LineProtocol.LineReadsBack | internal/codec/influxlp/decoder.go:38-94 | a line decodes to its point with tags and fields sorted and the time cut to the precision |
| LineProtocol.RoundTrip | internal/codec/influxlp/decoder.go:21-257 | for every list of points that meet the conditions of LineExact.ComesBackExactly, encoding succeeds and decoding the text returns all of them, sorted by key |
| LineExact.NamePiece | internal/codec/influxlp/decoder.go:232-250 | wherever the scanner cuts a line that goes on with an escaped name and a separator: if the piece reads as the name, it was cut at that separator |
| LineExact.TagsForced | internal/codec/influxlp/decoder.go:109-123 | a stretch of the line that reads as the tags is their text, and every key and value in it is closed for the separators of its place |
| LineExact.HeadForced | internal/codec/influxlp/decoder.go:38-94 | the same for the measurement and the tags |
| LineExact.FieldsForced | internal/codec/influxlp/decoder.go:125-142 | fields that read back have keys closed for comma, equals sign and space |
| LineExact.ComesBackExactly | internal/codec/influxlp/decoder.go:21-257 | every point that can be written comes back from its line if and only if no name or string holds a line feed, every escaped name is closed for the separators of its place, and the measurement starts neither with # nor with white space other than a space |
| LineExact.AnyOrderComesBack | internal/codec/influxlp/encoder.go:48-65 | the same in whatever order the unstable sort leaves tags and fields with equal keys; with distinct keys there is one order |
| LineExact.BackslashLosesFields | internal/codec/influxlp/encoder.go:149-151 | a tag value that is one backslash makes a line that has no fields |
| LineTexts.BooleansExactly | internal/codec/influxlp/decoder.go:158-163 | a text reads as true if and only if it is t, T, true, True or TRUE, and as false if and only if it is f, F, false, False or FALSE |
| LineTexts.BooleanLine | internal/codec/influxlp/decoder.go:38-189 | the same for the whole line m k=text |
| LineTexts.SpelledReads | internal/codec/influxlp/decoder.go:144-189 | every spelling of every kind of value reads as its meaning: signed and unsigned integers with leading zeros and signs, floats, quoted strings |
| LineTexts.ReadsExactly | internal/codec/influxlp/decoder.go:144-189 | a text that is not quoted reads as a value if and only if it is one of these spellings |
| LineTexts.FieldErrors | internal/codec/influxlp/decoder.go:125-189 | which error each kind of malformed field gives |
| LineTexts.LineReads | internal/codec/influxlp/decoder.go:38-107 | a line by its parts: tags and fields in the order in which they stand, any blanks before the time, which counts in the literal unit of the precision |
| LineTexts.TextReads | internal/codec/influxlp/decoder.go:21-36 | a text of lines reads as the points on it in order, with blank lines and comments anywhere between them and white space around any of them |
| LineTexts.FirstErrorCounts | internal/codec/influxlp/decoder.go:21-36 | the first wrong line fails the text with its error, whatever stands behind it |
| LineTexts.EncoderWrites | internal/codec/influxlp/encoder.go:32-159 | the encoder writes exactly these characters, and refuses a list if and only if a point lacks its name or its fields |
| LineTexts.FloatTexts | internal/codec/influxlp/encoder.go:113-116 | which texts of floats there are |
| LineCodec.FindUnescaped | internal/codec/influxlp/decoder.go:192-214 | the index loop with its quote flag finds the first separator outside quotes and escapes, or none |
| LineCodec.SplitUnescaped | internal/codec/influxlp/decoder.go:217-230 | the loop returns all the parts |
| LineCodec.ParseTags | internal/codec/influxlp/decoder.go:109-123 | the loop parses every tag or returns the first error |
| LineCodec.ParseFields | internal/codec/influxlp/decoder.go:125-142 | the same for fields |
| LineCodec.DecodeOne | internal/codec/influxlp/decoder.go:38-94 | splits a line into measurement, tags, fields and timestamp as specified, with every error case |
| LineCodec.DecodeAll | internal/codec/influxlp/decoder.go:21-36 | the loop over lines passes over blank lines and comments and stops at the first error |
| LineCodec.WriteFieldValue | internal/codec/influxlp/encoder.go:111-132 | writes the text of each kind of value |
| LineCodec.EncodeOne | internal/codec/influxlp/encoder.go:32-82 | the loops over sorted tags and fields write the line, or one of the two errors |
| LineCodec.EncodeMulti | internal/codec/influxlp/encoder.go:85-96 | writes one line for each point, or the first error |
| LineCodec.ParseOneTag | internal/codec/influxlp/decoder.go:113-120 | splits a tag at its first unescaped equals sign |
| LineCodec.ParseOneField | internal/codec/influxlp/decoder.go:129-139 | the same for a field, with its value |
| LineCodec.DecodeHead | internal/codec/influxlp/decoder.go:55-67 | the measurement and the tags of a line |
| LineCodec.DecodeTail | internal/codec/influxlp/decoder.go:69-91 | the fields and the optional timestamp of a line |
| LineCodec.WriteTags | internal/codec/influxlp/encoder.go:46-57 | the loop over the sorted tags |
| LineCodec.WriteFields | internal/codec/influxlp/encoder.go:62-73 | the loop over the sorted fields |
| Yaml.SetKeyKeeps | internal/config/node.go:42-47 | SetKey keeps the key list free of duplicates and equal to the domain of the map, at every depth |
| Yaml.ParseNode | internal/config/parser.go:77-108 | on any lines: a parse moves past the first line that is not empty, stays within the lines, and builds only well-keyed nodes |
| Yaml.ParseMapping | internal/config/parser.go:110-195 | the same for a mapping: every entry moves the cursor, so the mutual recursion ends |
| Yaml.ParseSequence | internal/config/parser.go:197-267 | the same for a sequence |
| Yaml.InlineMapping | internal/config/parser.go:232-259 | the same for a mapping that begins on the line of its item |
| Yaml.Parse | internal/config/parser.go:20-75 | every mapping in a parsed document has a duplicate-free key list equal to the domain of its map |
| YamlFlow.ColonExactly | internal/config/parser.go:419-438 | the colon of a key is the first one outside quotes that is at the end or before a blank |
| YamlFlow.QuotedHasNoColon | internal/config/parser.go:419-438 | a quoted text never reads as a key and its value |
| YamlFlow.ScalarReads | internal/config/parser.go:440-448 | a text in either kind of quotes reads as what is between them, whatever it is; other text reads as itself unless it begins and ends with one quote |
| YamlFlow.ListReads | internal/config/parser.go:341-356 | a flow sequence of words, plain or quoted, with quotes and brackets closed inside them and blanks around them, reads as these words |
| YamlFlow.MapReads | internal/config/parser.go:358-377 | the same for a flow mapping; a key keeps its quotes |
| YamlFlow.FlowReads | internal/config/parser.go:341-409 | every flow collection reads as what it is written for, empty ones too |
| YamlPrinter.KeyColon | internal/config/parser.go:419-438 | where the colon of a key is found does not depend on the value behind it |
| YamlPrinter.EntriesParse | internal/config/parser.go:110-195 | a printed mapping parses to its entries and leaves the cursor at the next line that is not empty |
| YamlPrinter.ItemsParse | internal/config/parser.go:197-267 | a printed sequence does |
| YamlPrinter.BlockParses | internal/config/parser.go:77-108 | a printed block of any depth does |
| YamlPrinter.RenderReadsBack | internal/config/parser.go:38-54 | the text of lines splits back into them, with their indentation |
| YamlPrinter.ParseUndoesPrint | internal/config/parser.go:20-267 | for every tree of non-empty mappings and sequences over plain scalars, quoted scalars and flow collections, any deeper indentation at each level, blank lines and comments anywhere, with or without a document marker: parsing the text gives the tree, quoted scalars without their quotes |
| YamlPrinter.NodeOfMap | internal/config/node.go:42-47 | with distinct keys that tree lists them in order and maps each to its own node |
| YamlRest.BlockThen | internal/config/parser.go:77-267 | for every printable block and whatever lines stand behind it: each open block, the innermost first, goes on where the one inside it stopped |
| YamlRest.LineDroppedExactly | internal/config/parser.go:110-267 | the first line behind a printed block is dropped without an error if and only if no block open at its end takes it: one of its indentation, with a key in a mapping and a dash in a sequence |
| YamlRest.LineTaken | internal/config/parser.go:110-267 | a line that is taken is rejected with the error of its value, or kept in the block that takes it |
| YamlRest.RestDropped | internal/config/parser.go:56-75 | a document ends before the first line behind a printed tree, and the rest is dropped, if and only if no open block takes that line |
| YamlRest.IndentationDropped | internal/config/parser.go:279-291 | two blocks that differ in the depth of their lines have the same lines if and only if they end at the same line |
| YamlRest.LiteralKeptExactly | internal/config/parser.go:269-297 | the text of a literal block anywhere in a document is kept if and only if it is one blank line, or no line of it begins with a space or # or ends in a blank and the first and last lines are not blank |
| YamlRest.LiteralEntryExactly | internal/config/parser.go:134-150 | the same for the entry of a mapping |
| YamlBlocks.FoldedEntry | internal/config/parser.go:299-327 | the entry of a folded block: its lines with one space between neighbours, an empty one counting as a line feed, and the cursor behind the empty lines that follow |
| YamlBlocks.LiteralEntry | internal/config/parser.go:269-297 | the entry of a literal block keeps its lines, and leaves the cursor there too |
| YamlBlocks.InlineItemReads | internal/config/parser.go:228-259 | an item that begins with a key: one mapping with the further keys below, however deep and with gaps between them, quoted values without their quotes, up to the first line that is as little indented as the dash or has no key |
| YamlBlocks.NothingBelow | internal/config/parser.go:134-165 | a key with nothing behind it, or a block sign, and no deeper line below has an empty scalar |
| YamlParser.MappingBuilder.SetKey | internal/config/node.go:42-47 | updates the key list and the map in place, and keeps them matching |
| YamlParser.FindMappingColon | internal/config/parser.go:419-438 | the loop finds the colon outside quotes |
| YamlParser.SplitFlowItems | internal/config/parser.go:379-409 | the loop splits at commas outside quotes and brackets |
| YamlParser.ParseFlowSequenceStr | internal/config/parser.go:341-356 | builds the sequence or fails as specified |
| YamlParser.ParseFlowMappingStr | internal/config/parser.go:358-377 | builds the mapping or fails as specified |
| YamlParser.Parser.SkipEmpty | internal/config/parser.go:411-415 | moves to the next line that is not empty |
| YamlParser.Parser.ParseDocument | internal/config/parser.go:56-75 | returns the parsed document |
| YamlParser.Parser.ParseNode | internal/config/parser.go:77-108 | returns the node and leaves the cursor as specified; terminates |
| YamlParser.Parser.ParseMapping | internal/config/parser.go:110-195 | the loop builds the mapping |
| YamlParser.Parser.ParseMappingValue | internal/config/parser.go:134-191 | the branches on the text behind the colon |
| YamlParser.Parser.ParseSequence | internal/config/parser.go:197-267 | the loop builds the sequence |
| YamlParser.Parser.ParseInlineMapping | internal/config/parser.go:232-259 | the loop adds the further keys |
| YamlParser.Parser.ParseBlock | internal/config/parser.go:269-327 | both kinds of block scalar: collected lines, trailing empty ones dropped, joined |
| YamlParser.Parser.ParseSequenceItem | internal/config/parser.go:213-263 | the branches on the text behind the dash |
| YamlParser.ParseInput | internal/config/parser.go:20-24 | from the text to the document |
| WorkerPool.StepKeepsInv | internal/queue/workerpool.go:44-88 | every step of every submitter, worker and closer keeps: accepted = queued + running + done, as multisets |
| WorkerPool.RunKeepsInv | internal/queue/workerpool.go:44-88 | so does every run |
| WorkerPool.WhatWorkersLeave | internal/queue/workerpool.go:64-88 | in any run, whoever cancels: when all workers are gone, exactly the jobs accepted before the last left have been run, each once, and the others are still queued |
| WorkerPool.CloseRunsEverything | internal/queue/workerpool.go:56-62 | when only Close cancels and it returns, every accepted job has been run exactly once and the queue is empty |
| WorkerPool.OutsideCancelLosesAJob | internal/queue/workerpool.go:34-40 | the condition is needed: cancelled from outside, a pool can accept a job and never run it |
| WorkerPool.CloseTerminates | internal/queue/workerpool.go:56-88 | after Close some worker can always step until all are gone, and every such step lowers a measure |
| WorkerPool.QuietCloseNeverPanics | internal/queue/bounded.go:28-42 | if no submitter is between its check and its send when Close runs, no send hits a closed channel |
| WorkerPool.PanicsExactlyWhenBusy | internal/queue/bounded.go:28-42 | a Close now can be followed by such a panic if and only if a submitter is in between |
| WorkerPool.RunKeepsDrained | internal/queue/workerpool.go:56-88 | while only Close cancels, a worker leaves only when the queue is closed and empty |
| WorkerPool.FillsUp | internal/queue/bounded.go:28-43 | an open queue takes as many jobs as it has places, in order, without any worker |
| WorkerPool.OneWorkerSuffices | internal/queue/workerpool.go:64-88 | one idle or draining worker can run all queued jobs in order |
| WorkerPool.NoDeadlock | internal/queue/workerpool.go:64-88 | while jobs are queued and a worker is left, some worker can take or finish a job |
| WorkerPool.NoSubmissionLost | internal/queue/bounded.go:28-61 | over every run, each job brought to the open queue is waiting, accepted or given up |
| Pipeline.StepSimulates | internal/pipeline/pipeline.go:126-172 | every step of the pipeline is one, or none, of a worker pool with one worker |
| Pipeline.RunSimulates | internal/pipeline/pipeline.go:138-172 | so every run of the pipeline is a run of such a pool with the same history |
| Pipeline.FirstInFirstOut | internal/pipeline/pipeline.go:126-172 | at every moment: processed, then in hand, then queued is the accepted sequence, and the queue is within its capacity |
| Pipeline.ShutdownDrains | internal/pipeline/pipeline.go:100-123 | when the consumer has stopped, with no cancel but that of Shutdown, everything accepted was handed on in order |
| Pipeline.WhatShutdownLeaves | internal/pipeline/pipeline.go:163-172 | whoever cancels: what was handed on is what was accepted before the consumer stopped; the rest is still queued |
| Pipeline.QuietShutdownNeverPanics | internal/pipeline/pipeline.go:100-123 | receivers first, queue after: no send panics |
| Pipeline.HandsOnAll | internal/pipeline/pipeline.go:138-161 | the consumer can hand on everything that is queued, in order |
| Pipeline.DrainsAll | internal/pipeline/pipeline.go:163-172 | a draining consumer can hand on everything that is queued and stop |
| Pipeline.ConsumerNeverStuck | internal/pipeline/pipeline.go:138-172 | the consumer can always take a step until it has stopped |
| Pipeline.FillsUp | internal/pipeline/pipeline.go:126-132 | an open queue takes as many batches as it has places, in order, whatever the consumer is doing |
| Batching.CalledKeeps | internal/pipeline/batch.go:45-97 | every call keeps the invariant: below the batch size, and a timer armed exactly when something is pending |
| Batching.RunKeeps | internal/pipeline/batch.go:45-97 | over every run of calls and callbacks: exported batches and then the pending one are all the input spans in order; every export has 1 to MaxBatchSize spans |
| Batching.ShutdownExportsAll | internal/pipeline/batch.go:100-103 | after Shutdown everything that came in was exported |
| Batching.WrongResource | internal/pipeline/batch.go:47-66 | two resources in one call: the spans of the first go out under the second |
| Batching.AttributionExact | internal/pipeline/batch.go:47-66 | one call on an empty buffer that does not fill it, then a flush: its spans are exported under their own resource and scope if and only if all came under the last ones of the call |
| Batching.FullBatchesOnly | internal/pipeline/batch.go:45-66 | a call that adds spans exports batches of exactly the batch size only |
| Batching.SizeIs | internal/pipeline/batch.go:30-42 | 512 spans unless a positive size is asked for |
| Batching.EventsGoOn | internal/pipeline/batch.go:45-66 | the resources of a call take effect in order |
| Batching.OneScopeEvents | internal/pipeline/batch.go:50-62 | a scope takes effect before its spans are added, in order |
| BatchAttribution.StepsAttribution | internal/pipeline/batch.go:45-97 | over every run of headers, spans and flushes: the exported spans carry the headers they came under if and only if, for each of them, the headers in force when it was exported are those |
| BatchAttribution.EveryRunAttribution | internal/pipeline/batch.go:45-103 | the same over every run of calls, flushes and timer callbacks, with batches that fill up in the middle of a call; after a last flush for everything that came in |
| BatchAttribution.QuietAttribution | internal/pipeline/batch.go:45-97 | it is so if headers change only while nothing is pending |
| BatchAttribution.Follows | internal/pipeline/batch.go:45-97 | after every run the headers in force are the last ones set, and every span that came in has been exported or is pending, in order |
| BatchProcessor.Processor.constructor | internal/pipeline/batch.go:30-42 | starts empty, with the default size if none is given |
| BatchProcessor.Processor.FlushLocked | internal/pipeline/batch.go:78-97 | exports a copy of what is pending and empties the buffer; no exported batch is altered |
| BatchProcessor.Processor.Flush | internal/pipeline/batch.go:72-76 | the same for the callback of any timer, stale or not |
| BatchProcessor.Processor.ProcessTraces | internal/pipeline/batch.go:45-69 | the nested loops add every span, flush when full, and arm the timer if something is left |
| BatchProcessor.Processor.Append | internal/pipeline/batch.go:52-55 | appends in place and flushes when full; batches exported earlier keep their spans |
| ArrivalOrder.SameSize | internal/storage/memory/memory.go:84-111 | the map and the order have the same size |
| ArrivalOrder.EvictAgrees | internal/storage/memory/memory.go:302-309 | dropping the head of the order and its key drops the oldest entry and nothing else |
| ArrivalOrder.InsertAgrees | internal/storage/memory/memory.go:93-102 | a new key goes to the end |
| ArrivalOrder.UpdateAgrees | internal/storage/memory/memory.go:103-106 | a known key keeps its place |
| ArrivalOrder.PutExactly | internal/storage/memory/memory.go:91-106 | an entry leaves only when the list is full and a new key comes, and then it is the oldest |
| SpanWalk.OneEach | internal/storage/memory/memory.go:84-111 | the spans of one scope are walked in order, each under its resource and scope |
| SpanWalk.WalksOn | internal/storage/memory/memory.go:84-111 | the walk of two batches is the walk of the one and then of the other |
| MemoryStore.Backend.EvictOldest | internal/storage/memory/memory.go:302-309 | drops the oldest trace of the list that the map and the order stand for |
| MemoryStore.Backend.WriteSpan | internal/storage/memory/memory.go:91-106 | one span: merged into its trace, or a new trace at the end, after an eviction if there is no room |
| MemoryStore.Backend.WriteSpans | internal/storage/memory/memory.go:84-111 | the nested loops write every span in order |
| MemoryStore.Backend.Clear | internal/storage/memory/memory.go:72-79 | empties the list |
| MemoryStore.Backend.GetTrace | internal/storage/memory/memory.go:116-125 | finds a trace if and only if it is in the list, and returns its data |
| MemoryStore.Backend.FindTraceIDs | internal/storage/memory/memory.go:151-171 | returns the ids of stored traces that match, in arrival order, at most 20 of them or as many as a positive number asked for; none is passed over before the last one, and none at all if there are fewer |
| MemoryStore.Backend.FindTraces | internal/storage/memory/memory.go:128-148 | the same for the data of the traces |
| MemoryStore.MergeIsAppend | internal/storage/memory/memory.go:320-330 | merging appends the span to the first scope of the first resource |
| MemoryStore.RunShows | internal/storage/memory/memory.go:72-111 | over every run of writes and Clear: the store holds exactly the traces started last, at most maxTraces, each with all its spans in write order since it was started, none twice |
| MemoryStore.MatchesAreFirst | internal/storage/memory/memory.go:128-171 | what is found is at most n stored traces that match; with fewer than n, all that match |
| MemoryStore.Backend.constructor | internal/storage/memory/memory.go:43-51 | starts empty, with the default capacity if none is given |
| MemoryStore.WrittenShows | internal/storage/memory/memory.go:84-111 | one write keeps the store equal to the newest part of the history |
| TailSampling.Processor.Receive | internal/pipeline/tail_sampling.go:140-153 | one span: joins its trace, or opens one, after an eviction if there is no room |
| TailSampling.Processor.ProcessTraces | internal/pipeline/tail_sampling.go:133-158 | the nested loops receive every span in order |
| TailSampling.Processor.EvictOldest | internal/pipeline/tail_sampling.go:235-242 | drops the oldest buffered trace |
| TailSampling.Processor.Sample | internal/pipeline/tail_sampling.go:210-217 | returns true if and only if there is no policy or one of them wants the spans |
| TailSampling.Processor.MakeDecisions | internal/pipeline/tail_sampling.go:196-233 | keeps what is too young, in order, and exports or drops the rest |
| TailSampling.Processor.constructor | internal/pipeline/tail_sampling.go:111-123 | starts empty, with defaults for what is not given |
| TailSampling.Processor.Open | internal/pipeline/tail_sampling.go:141-152 | the branch for a trace that is not held: an eviction if there is no room, and a new trace at the end |
| TailSampling.SampledExactly | internal/pipeline/tail_sampling.go:210-217 | a trace is wanted if and only if there is no policy or one of them wants it |
| TailSamplingRuns.ArriveConserves | internal/pipeline/tail_sampling.go:133-158 | an arrival conserves the multiset of spans: received = buffered + exported + rejected + evicted |
| TailSamplingRuns.DecideConserves | internal/pipeline/tail_sampling.go:196-233 | a decision pass does |
| TailSamplingRuns.PassSplits | internal/pipeline/tail_sampling.go:196-233 | a pass splits the buffered spans into kept, exported and rejected ones |
| TailSamplingRuns.CallIsRun | internal/pipeline/tail_sampling.go:133-158 | a call of ProcessTraces is such a run of arrivals |
| TailSamplingRuns.PassTakesPrefix | internal/pipeline/tail_sampling.go:196-233 | with a clock that does not go back, every pass removes exactly the prefix of traces first seen at least the wait ago |
| TailSamplingRuns.ShutdownDecidesAll | internal/pipeline/tail_sampling.go:161-170 | the last pass leaves nothing behind if and only if every buffered trace is old enough |
| TailSamplingRuns.ShutdownForgetsYoungTraces | internal/pipeline/tail_sampling.go:161-170 | a trace that arrives just before Shutdown is neither exported nor rejected |
| TailSamplingRuns.RunAges | internal/pipeline/tail_sampling.go:133-242 | with such a clock the buffer stays sorted by age |
| TailSamplingRuns.ArriveKeepsWhole | internal/pipeline/tail_sampling.go:133-158 | an arrival keeps: every buffered trace has exactly the spans of it that came in since the arrival that opened it, in order, and has been buffered ever since |
| TailSamplingRuns.DecideKeepsWhole | internal/pipeline/tail_sampling.go:196-233 | a pass keeps: every exported trace has exactly the spans of it that came in between the arrival that opened it and the pass that took it away, was wanted by a policy, and not exported before the wait |
| TailSamplingRuns.ReceivedArrived | internal/pipeline/tail_sampling.go:133-158 | what a run has received is what its arrivals brought, in order |
| TailSamplingRuns.EveryRun | internal/pipeline/tail_sampling.go:133-242 | all of this, conservation, and at most MaxTraces buffered with none twice, over every interleaving of arrivals and passes |
| TailDecisions.PassExactly | internal/pipeline/tail_sampling.go:196-233 | a pass keeps the traces that are not old enough, exports those that are and that some policy wants, or all of those if there is no policy, and rejects the rest, each in the order of arrival |
| TailDecisions.DecidedExactly | internal/pipeline/tail_sampling.go:133-233 | over every run: a pass that meets an open trace exports it, with exactly the spans of it that came since it was opened, if and only if it is old enough and wanted; it keeps it if and only if it is not old enough; else it rejects those spans |
| ClockSkew.Adjust | internal/query/adjuster.go:99-139 | the two loops over spans in place compute the specified visits, and the warnings name the spans that moved |
| ClockSkew.Visit | internal/query/adjuster.go:113-135 | the loop body: at most the visited span changes |
| ClockSkew.ChangedOnce | internal/query/adjuster.go:113-135 | a span changes only at its own visit |
| ClockSkew.DurationKept | internal/query/adjuster.go:99-139 | every span keeps its duration, modulo 2^64 |
| ClockSkew.StartsBounded | internal/query/adjuster.go:99-139 | no start moves back, none past the latest original start |
| ClockSkew.StableExactly | internal/query/adjuster.go:99-139 | a pass changes nothing if and only if it finds no skewed span |
| ClockSkew.ShiftIs | internal/query/adjuster.go:113-135 | a span is moved by the lead of its parent at the time of its visit, or not at all |
| ClockSkew.ShiftLimited | internal/query/adjuster.go:121-125 | shifts stay within a positive limit, unless they are of 2^63 ns or more |
| ClockSkew.LimitMissedExactly | internal/query/adjuster.go:121-125 | a positive limit is missed if and only if the span starts 2^63 ns or more before its parent does when it is visited |
| ClockSkew.ParentStartIs | internal/query/adjuster.go:113-135 | that start of the parent is the one that came in, if the parent is not listed before the span, else its final one |
| ClockSkew.LimitKeptExactly | internal/query/adjuster.go:121-125 | the limit is kept for all traces with starts between two times if and only if these are less than 2^63 ns apart |
| ClockSkew.LimitMissed | internal/query/adjuster.go:121-125 | two spans with such a distance and a limit of one nanosecond |
| ClockSkew.OnePassExactly | internal/query/adjuster.go:99-139 | under any limit, one pass settles a list for all start and end times if and only if no span is listed before a parent that has a parent of its own in the list other than the two |
| ClockSkew.OnePassSuffices | internal/query/adjuster.go:99-139 | in particular with parents listed first, and then a second pass changes nothing |
| ClockSkew.NoChildBeforeItsParent | internal/query/adjuster.go:99-139 | for such lists, without a limit no child starts before its parent after one pass |
| ClockSkew.OrderMatters | internal/query/adjuster.go:99-139 | for example a grandchild listed first is not settled in one pass |
| ClockSkew.MovedExactly | internal/query/adjuster.go:106-130 | a span is moved if and only if the last span with its parent id starts later, by no more than a positive limit or by 2^63 ns or more |
| ClockSkew.WarnedExactly | internal/query/adjuster.go:126-134 | there is a warning for each span that was changed, in order |
| Deduplication.Adjust | internal/query/adjuster.go:67-86 | the loop over the spans of a scope, with its index map, computes the specified list and warnings |
| Deduplication.OneForEachId | internal/query/adjuster.go:67-86 | ids become distinct, no id is lost, every span left came in, and the others were warned about |
| Deduplication.NothingRemovedExactly | internal/query/adjuster.go:67-86 | nothing is removed if and only if ids were distinct; so a second pass removes nothing |
| Deduplication.TopKeptExactly | internal/query/adjuster.go:73-77 | in every list, the span kept for an id has both the most events and the most attributes of that id if and only if some span of the id has both |
| Deduplication.OrderMattersExactly | internal/query/adjuster.go:73-77 | what is kept for an id has the same counts in every order of the spans if and only if some span of the id has both maxima |
| Deduplication.RichestKept | internal/query/adjuster.go:73-77 | if, of two duplicates, one always has at least as many events and attributes, the richest is kept |
| Deduplication.OrderDecides | internal/query/adjuster.go:73-77 | either of two spans that cannot be compared can replace the other |
| Deduplication.OrderKept | internal/query/adjuster.go:63-96 | ids stay in the order of their first spans, and there is a warning for each span that repeats one, in order |
| AdaptiveSampling.Engine.RecordSpan | internal/sampling/adaptive.go:35-49 | adds one to the count of the service and changes nothing else |
| AdaptiveSampling.Engine.Compute | internal/sampling/adaptive.go:52-77 | swaps every count for zero and moves exactly the rates of the services that were seen |
| AdaptiveSampling.RoundContracts | internal/sampling/adaptive.go:63-74 | a rate moves towards its goal and not past it; at most seven tenths of the distance remain |
| AdaptiveSampling.RoundsConverge | internal/sampling/adaptive.go:52-77 | after n rounds at the same throughput the rate is within 0.7^n of the starting distance from the goal, and always within its bounds |
| AdaptiveSampling.DefaultConverges | internal/sampling/adaptive.go:52-77 | from the default rate the goal is missed by at most 0.7^n |
| AdaptiveSampling.Engine.constructor | internal/sampling/adaptive.go:23-32 | starts without rates, with a target of 1 if none is given |
| AdaptiveSampling.Engine.ComputeOne | internal/sampling/adaptive.go:60-75 | the loop body: the count becomes 0 and the rate moves only if spans were seen |
| AdaptiveSampling.Run | internal/sampling/adaptive.go:35-77 | the engine run over any rounds of recorded spans and computations: every rate is what the rounds that saw its service make of it |
| AdaptiveSampling.RunConverges | internal/sampling/adaptive.go:52-77 | over every run with a steady throughput, with idle rounds anywhere, the rate ends within 0.7 to the number of busy rounds of its starting distance from the goal, and within its bounds |
| AdaptiveSampling.NewRateExactly | internal/sampling/adaptive.go:71-75 | the new rate is seven tenths of the old one and three of the desired one, within 0.0001 and 1, which leaves exactly seven tenths of the distance where these do not cut it |
| AdaptiveSampling.RecomputedExactly | internal/sampling/adaptive.go:56-76 | a service that was not seen keeps its rate, 1 at first; any other moves by its count over the interval, or over one second |
| AdaptiveSampling.GoalIs | internal/sampling/adaptive.go:71 | the goal is the rate at which the sampled throughput is the target |
| KafkaWire.RecordReads | internal/pipeline/kafka_exporter.go:528-569 | a whole record is taken and the cursor stops behind it |
| KafkaWire.CutRecordIgnored | internal/pipeline/kafka_exporter.go:528-538 | a record that is cut anywhere is not taken |
| KafkaWire.CutSetReads | internal/pipeline/kafka_exporter.go:523-570 | a message set cut at any byte gives exactly the records that are whole before the cut |
| KafkaWire.CutResponseReads | internal/pipeline/kafka_exporter.go:464-575 | the same for a whole response with one topic and partition, of at most 16 MiB |
| KafkaWire.ResponseReads | internal/pipeline/kafka_exporter.go:464-575 | an uncut response gives all its records |
| KafkaWire.NextIsLargest | internal/pipeline/kafka_exporter.go:566-568 | the next offset is the largest offset plus one, and never before the start |
| KafkaWire.BodyReads | internal/pipeline/kafka_exporter.go:484-572 | the message set of a response is found behind its headers and read to its end |
| KafkaWire.AllDelivered | internal/pipeline/kafka_exporter.go:559-563 | of records with non-empty values, all values are returned in order |
| KafkaWire.AllDeliveredExactly | internal/pipeline/kafka_exporter.go:559-563 | as many values are returned as there are records if and only if no value is empty |
| KafkaBytes.ResponseReadsBytes | internal/pipeline/kafka_exporter.go:464-575 | responses by their literal bytes, with any number of topics, partitions and messages, with keys, without, or empty: every value that is not empty is delivered once, in order, and the next offset is the highest behind any message |
| KafkaBytes.ResponseErrors | internal/pipeline/kafka_exporter.go:465-484 | which responses are refused, and with which error |
| KafkaBytes.RecordIs | internal/pipeline/kafka_exporter.go:133-162 | the record that is produced, by its literal bytes |
| Kafka.BuildKafkaMessage | internal/pipeline/kafka_exporter.go:133-162 | the buffer, filled in place, is the record of the value at offset 0 |
| Kafka.PutUint32 | internal/pipeline/kafka_exporter.go:144-159 | changes four bytes of a buffer and no other |
| Kafka.ParseFetchResponse | internal/pipeline/kafka_exporter.go:464-575 | on arbitrary bytes: terminates, with every index in bounds, and returns what the specification says |
| Kafka.ParseTopics | internal/pipeline/kafka_exporter.go:495-572 | the loop over topics |
| Kafka.ParsePartitions | internal/pipeline/kafka_exporter.go:511-571 | the loop over partitions |
| Kafka.ParseMessageSet | internal/pipeline/kafka_exporter.go:528-570 | the loop over messages |
| Kafka.ParseMessage | internal/pipeline/kafka_exporter.go:540-568 | its body: the key and value lengths, and the three ways through |
| Kafka.BuildInner | internal/pipeline/kafka_exporter.go:134-151 | the message with its checksum, filled in place |
| TraceState.SizeIsPrinted | internal/propagation/tracestate.go:133-158 | byteSize is the length in bytes of the printed header |
| TraceState.ComesBackExactly | internal/propagation/tracestate.go:49-77 | a list comes back from its header if and only if its entries are clean, it has at most 32 of them, and at most 8192 bytes |
| TraceState.ParsedComesBack | internal/propagation/tracestate.go:49-147 | what was parsed from any header comes back from its own |
| TraceState.ParsedClean | internal/propagation/tracestate.go:57-71 | whatever is parsed is clean |
| TraceState.SetThenGet | internal/propagation/tracestate.go:80-107 | Set puts the entry in front, Get finds it, and no other key changes |
| TraceState.WithoutKeeps | internal/propagation/tracestate.go:110-118 | Delete removes the key and no other |
| TraceState.ParseTraceState | internal/propagation/tracestate.go:49-77 | the loop parses the header or returns the error specified |
| TraceState.SizeOf | internal/propagation/tracestate.go:149-158 | the loop computes the size |
| TraceState.Print | internal/propagation/tracestate.go:133-147 | the loop prints the header |
| TraceState.PaddedReads | internal/propagation/tracestate.go:49-77 | white space around members and empty members do not matter, but these count among the 32 that a header may have |
| TraceState.InvalidExactly | internal/propagation/tracestate.go:57-71 | members are invalid if and only if one that is not blank lacks an equals sign or begins with one |
| TraceState.CharLenIs | internal/propagation/tracestate.go:149-158 | the bytes of a character in UTF-8 |
| TraceState.SetExactly | internal/propagation/tracestate.go:91-107 | Set fails only if there are more than 32 entries, the new one counted, or the header has more than 8192 bytes |
| TraceState.WithoutExactly | internal/propagation/tracestate.go:110-118 | the entries with other keys stay, in order |
| TraceContext.HexReads | internal/propagation/tracecontext/tracecontext.go:75-82 | ids read back from their hexadecimal text |
| TraceContext.TraceparentReads | internal/propagation/tracecontext/tracecontext.go:65-113 | a traceparent header reads back if and only if its flags are below 0x80; otherwise it is rejected |
| TraceContext.ExtractAfterInject | internal/propagation/tracecontext/tracecontext.go:19-58 | for every valid context and carrier: with flags from 0x80 on nothing is extracted; below, ids and flags come back marked remote, and the whole context does if and only if its trace state survives |
| TraceContext.Inject | internal/propagation/tracecontext/tracecontext.go:19-34 | writes the headers of a valid context and nothing for another |
| TraceContext.Extract | internal/propagation/tracecontext/tracecontext.go:37-58 | returns the extracted context, or the one given |
| TraceContext.TraceparentIs | internal/propagation/tracecontext/tracecontext.go:19-28 | the header by its 55 characters |
| TraceContext.TraceparentExactly | internal/propagation/tracecontext/tracecontext.go:65-113 | a header is accepted if and only if it has 55 characters, version 00, digits of either case and flags below 0x80; then the ids and flags are those of its digits |
| TraceContext.InjectedExactly | internal/propagation/tracecontext/tracecontext.go:19-34 | which headers are written, under which names |
| TraceContext.ExtractedExactly | internal/propagation/tracecontext/tracecontext.go:37-58 | what is extracted from any headers |

## Left out

- The buffer pool of the protobuf encoder, WriteRaw, and tagged forms of writes that are proved untagged.
- Protobuf.Decoder.SkipField: after a length prefix whose signed sum with the cursor wraps, the code moves its cursor back and goes on; the model ends in an outcome of its own (Oversized), because the decoding loops need not end then.
- Protobuf.Decoder.ReadBytes: the same outcome stands for the panic of the slice, behind which no state is left to follow.
- Compact.Decoder.ReadString: the same.
- CompactBools.SeparateBoolExactly: one such field in a struct whose other fields are written with the calls meant for them; what is read behind each such field is stated for all bytes (CompactBools.TrueReads), but several of them can make up for one another, and for those no condition on the ids is given.
- Values that a decoder returns next to an error: every caller drops them.
- nil slices and maps as distinct from empty ones.
- A generic reader and writer of Thrift values does not exist in the repository: Compact.WriteValue and Compact.ReadValue stand for its clients and call its methods in the order the protocol asks for; a type without values is an error there.
- BinaryWire.SkipsExactly: strings shorter than 2^31 bytes, because a longer one does not fit its 32-bit length.
- JaegerBatch.UnknownFieldsIgnored: the known fields have the types the receiver reads, because it dispatches on the id alone and would read any type as its own.
- LineExact.ComesBackExactly: a point has a time whose value at the decoder's precision fits 64 bits, as time.Time gives it, and floats that ParseFloat accepts.
- ParseFloat and FormatFloat: a parameter says which texts are floats, and a float is its shortest text.
- Line and column numbers of configuration nodes and errors, and of line protocol errors.
- YamlParser.MappingBuilder.SetKey: nodes under construction are objects that are updated in place; finished nodes are values, so aliasing between them is not captured.
- YamlPrinter.ParseUndoesPrint: trees do not hold block scalars and mappings that begin behind a dash; what these read as, wherever they stand, is stated on its own (YamlBlocks.FoldedEntry, YamlBlocks.InlineItemReads).
- YamlFlow.ListReads: brackets inside a member of a flow collection are closed; the code counts them without telling them apart, and so does the model.
- The tests inside matchesQuery: which stored traces match is a parameter of MemoryStore.Backend.FindTraces.
- MemoryStore.Backend.GetTrace: the slices it returns share memory with the store in Go; here they are values.
- Services, operations, dependencies, throughput and probabilities of the in-memory store: maps without an order to keep.
- The bodies of the sampling policies, and the ticker that calls the decision pass: passes come at any time.
- BoundedQueue.DrainTo and DequeueWait, which the pipeline and the pool do not use in the modelled runs.
- The goroutines, channels, mutexes and wait groups themselves: WorkerPool.StepKeepsInv and Pipeline.StepSimulates are about their atomic steps, with the data in values.
- ProcessAndExport of the pipeline, its processors and exporters: a batch is handed on when it begins, and done when it returns.
- AdaptiveSampling.RoundsConverge: reals stand for doubles, so rounding is not followed.
- RecordSpan of adaptive sampling takes a read lock and then a write lock; here the call is one step.
- ClockSkew.Adjust: the nested resource, scope and span slices are one array of spans in the order of the loops; the code looks up parents by span id alone, across traces, and so does the model.
- SpanSorter, the address normalizer and the adjuster chain: single loops. Deduplication.Adjust is the loop body for one scope.
- Carriers other than the map-backed one, such as HTTP headers.
- Kafka.BuildKafkaMessage: the checksum is a parameter; produce and fetch requests are left out.
- HTTP, gRPC, UDP and TLS, configuration decoding by reflection, and the Zipkin and Jaeger model converters.
