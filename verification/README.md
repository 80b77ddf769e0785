# Aura: a verified model of the archiver's state machines

Aura archives EPICS process variables: it speaks the pvAccess protocol, stores samples in
PostgreSQL, discovers which variables to subscribe to, and repeats stable values as heartbeats.
This project models the parts of it that are protocols, parsers and accounts, and proves what
they promise. `dafny verify dfyconfig.toml` checks all of it.

| file | what it models |
|---|---|
| `Wrappers.dfy` | `Option` and `Result` |
| `PvData.dfy` | bytes, byte orders, and the size and string encodings over a reading cursor and a writer |
| `Header.dfy` | the 8-byte message header and its flag byte |
| `Framing.dfy` | the incremental framer: waiting states, segment reassembly, counters, and the receive loop |
| `FieldDesc.dfy` | the recursive type-description printer and parser, and the registry of described ids |
| `Words.dfy`, `BitSet.dfy` | 64-bit words as digits, the two-tier bit set and its trimmed wire form |
| `ConfigPoller.dfy`, `Reconciler.dfy`, `CommandPublisher.dfy`, `Orchestrator.dfy` | discovery: snapshot differences, the resolved/pending/not-found sets, the commands, and whole runs |
| `Heartbeat.dfy` | the heartbeat table, its scans, and histories of stores, settings and scans |
| `Buffers.dfy` | the byte limit of the writer's buffers, and what they refuse |
| `Flush.dfy` | flushing a bundle: chunks, retries by position, the JSON family of tables, and the writer's buffers |
| `StoreLoop.dfy` | the store loop: one flush at a time, back-off, exhaustion, panics, and the three-phase shutdown |

How it is built. Code that updates things in place is a class or a method with a loop, proved
against a specification function; what the code promises is proved about that function or
carried as an invariant. What the outside decides is a parameter, and every theorem holds for all
its values: the bytes and their chunks, the rows of the configuration table, the answers of
queries, publishers and COPY commands, the moments at which flush tasks end and how they end,
what the buffers bring, and the clock. Hash-set iteration picks elements in any order.

## The main results

- **Framing.** The frames do not depend on how the bytes are cut (`ChunkingIsInvisible`), message
  lists round-trip, and a segmented message is reassembled exactly when its total is within four
  times the payload limit (`Reassembly`). `PullOnBytes` says of any bytes, digit by digit, what the
  next frame or error is.
- **Type descriptions.** The code round-trips exactly the well-formed descriptions
  (`RoundTripIffWellFormed`), is self-delimiting, and caching by id is transparent exactly when no
  definition that is needed later is lost to a full registry (`CachingIsTransparentIff`). Names and
  type ids are accepted exactly when they encode lists of Unicode scalar values (`Utf8IffText`).
- **Bit sets.** The two-tier representation is a finite set of naturals under every operation;
  its wire form is canonical and trimmed, and decoding gives back its members.
- **Discovery.** Over whole runs, replaying all commands to a strict receiver gives exactly the
  resolved names: the enabled names of the last tick that reported a change and got all rows, or of
  the startup (`Orchestrator.Run`).
- **Heartbeats.** A heartbeat is emitted exactly when it is due and repeats the latest remembered
  store (`HeartbeatExactly`, `SampleIsLatestStore`); consecutive rows are less than h + S apart
  (`GapBound`).
- **Store loop.** Over whole runs, and over exactly the bundles the loop started, whatever the database
  answers to each COPY and whichever shutdown phase is cut short: every accepted row is committed, lost
  or in no COPY; `written + lost` is the number of accepted rows plus the surpluses of the flushes; one
  bundle is tried at a time, at most six times in the loop and seven in all, each retry after its delay;
  giving up comes at least 110 seconds after the first failure; and the database gets bundles in the
  order they were taken in (`WholeRun`, of which `StoreLoop.Run` is the imperative form; `TurnRecords`
  says what the record of bundles means). Every run over some rows writes or loses each of them and
  counts it once exactly when each row comes to one database row, and under no weaker condition do the
  counters add up in every run (`RunsAreExactIff`). When the database takes every COPY, nothing is lost
  and the database gets what was accepted, in order (`NothingFailsNothingLost`). The loop works on the
  rows of a bundle; what it counts and retains, in the loop and in each phase of the shutdown, is what
  a flush of the writer's sections reports, or after a panic what was reached (`FlushByRows`,
  `ReapedByEnd`, `FinishedByEnd`, `RetriedByEnd`, `DrainedByEnd`).

## Where the code does less than it seems to promise

Each of these is stated with its exact condition.

- A size of 2^31 or more is written through a signed 32-bit cast and does not come back
  (`WrapKeeps`, `SizeRoundTrip`, `StringRoundTrip`, `WireRoundTrip`).
- A full registry drops even the redefinition of an id it already holds, so a later reference
  yields the old description (`DefinitionThenReference`, `CachingIsTransparentIff`; with a registry of
  one entry, `RedefinitionDropped`).
- Startup gives every row to the reconciler but only enabled rows to the poller; the two agree
  because the query selects enabled rows only (`StartupAgrees`).
- Removing a name that is still pending sends an unsubscription for a name that was never
  subscribed (`Orchestrator.Cycle`; after a startup whose actions are not carried out,
  `StrayUnsubscription`). In `run` nothing is pending between cycles, so it does not
  happen there.
- Adding a name that is resolved or not found, or modifying one that is not found, leaves it in two
  of the reconciler's sets (`WhatKeepsApart`; the modified one, `NameInTwoSets`).
- The heartbeat tracker's own comment says that unsubscribing invalidates the cached value. It does
  so only if a scan that is not disabled meets the id while its interval is positive
  (`SampleIsLatestStore`, `OldValueComesBack`).
- An assembled segment's size passes through a signed 32-bit cast: a total of 2^31 or more, possible
  when the payload limit is 2^29 or more, gives a header with another size (`AssembledSize`).
- Four JSON tables are counted in elements while bundles are counted in rows, and a row without
  elements is in no COPY: it is neither written, lost nor kept. Conservation of rows holds, of a flush
  and of whole runs, exactly when each row of those tables has one element (`RowByRowIffOneEach`,
  `FlushByRowsIff`, `RunsAreExactIff`). The counts of one flush balance under a weaker condition, each
  table having as many elements as rows (`ConservesIffOnePerRow`), and then one row may stand in for
  another that vanished (`OneRowCountedForAnother`, `MiscountedRows`); over all runs of some rows they
  do not, since a run may flush any of them alone.
- The byte limit of the buffers for strings, arrays, JSON documents and images is on the bytes pushed
  since the count was last zeroed, and taking the rows for a flush does not zero it, nor does
  anything the loop does. A buffer refuses only what would take it past its limit exactly when it is empty,
  nothing was taken from it since the count was zeroed, or it holds as much as the limit
  (`RefusesForTheLimitIff`; a refusal at 10 bytes of 1024, `RefusedWithRoom`). Once the count reaches the
  limit, a buffer accepts one capture between two takes and refuses the others (`OneCaptureATake`,
  `OnlyTheFirst`). The refusals are not looked at, and what is refused is reported as dispatched
  (`IngestOtherRows`); it is in neither of the loop's counters.

## Model

The main results come first; the rest follows file by file.

| member | source | states |
|---|---|---|
| `Framing.ChunkingIsInvisible` | crates/aura-net/src/codec/framing.rs:97-177 | however a byte string is cut into chunks, the frames up to the first error, and that error, are those of the whole string |
| `Framing.PullOnBytes` | crates/aura-net/src/codec/framing.rs:97-177 | the next frame of any bytes that begin with eight header bytes, whatever is under assembly: each error and what is left, no payload for an odd flag byte, more bytes asked for exactly while the payload is incomplete, and what each segmentation digit does |
| `Framing.Reassembly` | crates/aura-net/src/codec/framing.rs:135-173 | First, Middle*, Last interleaved with passing frames gives those in order and one frame of the concatenated payload under the first header, if and only if the total is at most four times the limit; beyond it the error is SegmentTooLarge |
| `Framing.FramesRoundTrip` | crates/aura-net/src/codec/framing.rs:97-184 | whole frames and control frames encoded back to back decode to exactly that list with nothing left over |
| `Framing.Receive` | crates/aura-net/src/runtime/tcp.rs:111-124 | a receive loop over arriving chunks sees the frames and the error of the unchunked byte string |
| `FieldDescs.RoundTripIffWellFormed` | crates/aura-net/src/codec/field_desc.rs:257-427 | the round trip holds for exactly the well-formed descriptions |
| `FieldDescs.SelfDelimiting` | crates/aura-net/src/codec/field_desc.rs:257-287 | no encoding is a prefix of another's, so the code is injective |
| `FieldDescs.CachingIsTransparentIff` | crates/aura-net/src/codec/field_desc.rs:450-463 | for any lawful stream: decoding with the registry gives what the stream with every reference in full gives if and only if no definition that is referred to later arrives at a full registry not already holding it |
| `BitSet.SetRoundTrip` | crates/aura-net/src/codec/bitset.rs:206-293 | the bytes of a set have exactly the members of the set |
| `BitSet.WireIsCanonical` | crates/aura-net/src/codec/bitset.rs:253-293 | two sets are sent alike if and only if they are the same set |
| `Orchestrators.Orchestrator.Run` | crates/aura-discover/src/orchestrator.rs:227-270 | in a whole run, however queries and publisher answer, replaying all commands gives exactly the resolved names, which are those of the last snapshot taken, with nothing pending; a run that ends well has published all of it, and what is then resolved and subscribed are the enabled names of the last tick that reports a change and gets all rows, or of the startup without such a tick |
| `CommandPublisher.InPlaceIffInTurn` | crates/aura-discover/src/command_publisher.rs:16-33 | a strict receiver accepts everything if and only if at every moment each name was subscribed as often as unsubscribed or once more |
| `Heartbeats.HeartbeatExactly` | crates/aura-ingest/src/heartbeat.rs:140-171 | a scan emits a heartbeat if and only if the id is active, has an interval, has a value, and its last row is at least the interval old; the row repeats the latest store |
| `Heartbeats.SampleIsLatestStore` | crates/aura-ingest/src/heartbeat.rs:71-176 | an id has a value if and only if a store of it was not followed by a completed scan that found it inactive with an interval, and then it is that store's value, status and severity raised to 0 |
| `Heartbeats.GapBound` | crates/aura-ingest/src/heartbeat.rs:86-176 | consecutive rows of a steadily active id, scanned at most S apart, are less than h + S apart, and a heartbeat comes if and only if at least h has passed |
| `Flushing.RowByRowIffOneEach` | crates/aura-store/src/writer/mod.rs:695-764 | every JSON row is committed, kept or lost, and counted as such, whatever the database answers, if and only if each row that is taken apart has exactly one element |
| `Flushing.FlushByRowsIff` | crates/aura-store/src/writer/mod.rs:631-811 | whatever the database answers, no row of a bundle is in no COPY and report and losses are numbers of rows, if and only if each row comes to one database row |
| `StoreLoops.WholeRun` | crates/aura-store/src/store_loop.rs:18-492 | for every run and shutdown, over exactly the bundles started: every accepted row is in one bundle and there committed, lost or in no COPY; written + lost is the accepted rows plus the surplus; when each row comes to one database row, every row is written or lost and counted once; the database has the committed rows bundle by bundle in the order taken in; at most six starts of a bundle in the loop, each after the delay its last failure calls for, and seven in all; one given up failed first at least 110 seconds before |
| `StoreLoops.RunsAreExactIff` | crates/aura-store/src/store_loop.rs:18-492 | however the buffers bring some rows and however the flushes end, every row is written or lost and counted once, if and only if each row comes to one database row; and the surplus vanishes in every run, so that written + lost is their number, under exactly the same condition |
| `StoreLoops.NothingFailsNothingLost` | crates/aura-store/src/store_loop.rs:18-492 | a run in which the database takes every COPY, up to the last flush of the shutdown, loses nothing and writes every accepted row that comes to anything, in the order taken in |
| `StoreLoops.StoreLoop.Run` | crates/aura-store/src/store_loop.rs:18-492 | the loop and the shutdown do what the functions of the whole run say, so the results over whole runs hold of it; written + lost = accepted rows + surplus, and without the surplus, also as multisets, when each row comes to one database row |
| `PvData.I32RoundTrip` | crates/aura-net/src/codec/header.rs:127-143 | a signed 32-bit integer survives its four bytes in both byte orders |
| `PvData.I32Surjective` | crates/aura-net/src/codec/header.rs:127-143 | every four bytes are the bytes of the integer they are read as |
| `PvData.I32ByPosition` | crates/aura-net/src/codec/header.rs:127-143 | the value of four bytes in either order, by position and with its sign, and the bytes written for it |
| `PvData.I16RoundTrip` | crates/aura-net/src/codec/pvdata.rs:101-104 | a signed 16-bit integer survives its two bytes in both byte orders |
| `PvData.I16ByPosition` | crates/aura-net/src/codec/pvdata.rs:101-104 | the same for two bytes |
| `PvData.SizeRoundTrip` | crates/aura-net/src/codec/pvdata.rs:154-173 | a written size is read back, with exactly what followed it left over, if and only if it is below 2^31 |
| `PvData.SizeOnBytes` | crates/aura-net/src/codec/pvdata.rs:154-173 | what each first byte says of a size, and every error of reading one |
| `PvData.StringRoundTrip` | crates/aura-net/src/codec/pvdata.rs:175-183 | a UTF-8 string is read back with exactly what followed it if and only if it is shorter than 2^31 bytes |
| `PvData.StringOnBytes` | crates/aura-net/src/codec/pvdata.rs:175-183 | a string whose size is read fails exactly for missing bytes and for text that is not UTF-8 |
| `PvData.Utf8IffText` | crates/aura-net/src/codec/pvdata.rs:175-183 | text is accepted if and only if it is the encoding of a list of Unicode scalar values |
| `PvData.ParseString` | crates/aura-net/src/codec/pvdata.rs:175-183 | an accepted string is valid UTF-8 of fewer than 2^31 bytes, and reading it consumes input |
| `PvData.PvaReader.ReadSizeNonNull` | crates/aura-net/src/codec/pvdata.rs:154-173 | agrees with the size grammar, a null size being an error |
| `PvData.PvaReader.ReadString` | crates/aura-net/src/codec/pvdata.rs:175-183 | agrees with the string grammar, including its UTF-8 check |
| `PvData.PvaWriter.WriteSize` | crates/aura-net/src/codec/pvdata.rs:392-400 | appends the size bytes, of which the round trip above is proved |
| `PvData.PvaWriter.WriteString` | crates/aura-net/src/codec/pvdata.rs:407-411 | appends the length and the bytes of a string |
| `Header.HeaderRoundTrip` | crates/aura-net/src/codec/header.rs:298-332 | decoding an encoded header gives it back, in both byte orders and for negative sizes |
| `Header.HeaderBijection` | crates/aura-net/src/codec/header.rs:298-332 | exactly the 8-byte strings that start with the magic byte are headers, and re-encoding gives those bytes |
| `Header.HeaderOnBytes` | crates/aura-net/src/codec/header.rs:297-315 | where each field is in the eight bytes, with the size in the order the top bit of the flags calls for |
| `Header.FlagReadings` | crates/aura-net/src/codec/header.rs:60-122 | each digit of the flag byte says order, direction, segmentation or control, and the others do not matter |
| `Header.WithSegmentationSetsOnlySegmentation` | crates/aura-net/src/codec/header.rs:263-267 | changes the segmentation, no other reading of the flags, and can be undone |
| `Header.WithByteOrderSetsOnlyOrder` | crates/aura-net/src/codec/header.rs:257-261 | changes the byte order and no other reading of the flags |
| `Framing.PullExtends` | crates/aura-net/src/codec/framing.rs:97-177 | bytes added behind a settled outcome stay behind it; after "need more" they continue from where the framer stopped |
| `Framing.DrainExtends` | crates/aura-net/src/codec/framing.rs:97-177 | the same for taking frames until no more are complete |
| `Framing.DrainIsExchange` | crates/aura-net/src/codec/framing.rs:97-184 | message boundaries are recovered: draining the bytes of messages is absorbing the messages one by one |
| `Framing.ExchangeSegments` | crates/aura-net/src/codec/framing.rs:135-173 | what a segment under assembly becomes over any interleaving of middle segments and passing frames up to the last segment |
| `Framing.AbsorbOnBytes` | crates/aura-net/src/codec/framing.rs:135-173 | what a segmentation digit makes of an application message, with every flag of the assembled header |
| `Framing.ScanOnBytes` | crates/aura-net/src/codec/framing.rs:97-133 | the outcome of one message by its raw header, in all cases |
| `Framing.ShortOrHeader` | crates/aura-net/src/codec/framing.rs:101-107 | fewer than eight bytes are always too few, and every eight bytes are such a header |
| `Framing.AssembledSize` | crates/aura-net/src/codec/framing.rs:155-173 | the size in the assembled header is the total if and only if the total is below 2^31, as every total within the limit is when max_payload is below 2^29; its segmentation is cleared |
| `Framing.PullIsBounded` | crates/aura-net/src/codec/framing.rs:97-177 | one frame keeps the assembly buffer within four times the limit, over any input |
| `Framing.DrainIsBounded` | crates/aura-net/src/codec/framing.rs:97-177 | over any input only deliverable frames come out and the assembly buffer stays within four times the limit |
| `Framing.PvaCodec.DecodeFrame` | crates/aura-net/src/codec/framing.rs:97-177 | the loop with its stored state computes the next frame of the bytes; total_bytes is what was removed from the buffer, even on errors, and total_frames what was returned; it terminates |
| `Framing.PvaCodec.EncodeFrame` | crates/aura-net/src/codec/framing.rs:179-184 | appends the bytes of the frame, of which the round trip is proved |
| `Framing.TakeFrames` | crates/aura-net/src/runtime/tcp.rs:111-124 | repeated decoding takes the frames, the error and the leftover of the whole buffer and counts them |
| `FieldDescs.ScalarCodes` | crates/aura-net/src/codec/field_desc.rs:122-137 | every scalar code is read back as the scalar it was written for |
| `FieldDescs.ScalarCodesOnBytes` | crates/aura-net/src/codec/field_desc.rs:310-361 | which code below 0x80 is which scalar or array of scalars; all others are errors |
| `FieldDescs.OtherCodesOnBytes` | crates/aura-net/src/codec/field_desc.rs:363-427 | which code from 0x80 on is which type, and that all others are errors |
| `FieldDescs.CompositesOnBytes` | crates/aura-net/src/codec/field_desc.rs:363-427 | a structure or union is a type id, a count and as many fields, and the first error of these is its error |
| `FieldDescs.FieldsInTurn` | crates/aura-net/src/codec/field_desc.rs:367-375 | n + m fields are n fields and then m, and the first error ends it |
| `FieldDescs.OneFieldOnBytes` | crates/aura-net/src/codec/field_desc.rs:367-375 | a field is a name and a nested description |
| `FieldDescs.NestedOnBytes` | crates/aura-net/src/codec/field_desc.rs:289-308 | the tags that are errors in a nested description |
| `FieldDescs.NestedIdIsDropped` | crates/aura-net/src/codec/field_desc.rs:301-305 | a nested description with an id is the description behind it, whatever the id; a tag behind it is an error |
| `FieldDescs.Encode` | crates/aura-net/src/codec/field_desc.rs:257-287 | no description has an empty encoding |
| `FieldDescs.DecodeFull` | crates/aura-net/src/codec/field_desc.rs:289-308 | parsing terminates because every accepted description takes at least one byte |
| `FieldDescs.DecodeEncoded` | crates/aura-net/src/codec/field_desc.rs:257-427 | parsing the print of a well-formed description gives it back with exactly what followed it |
| `FieldDescs.DecodedIsWellFormed` | crates/aura-net/src/codec/field_desc.rs:289-427 | everything the parser accepts is well-formed |
| `FieldDescs.ReencodingIsStable` | crates/aura-net/src/codec/field_desc.rs:257-427 | re-encoding an accepted description gives bytes that mean the same description |
| `FieldDescs.Registered` | crates/aura-net/src/codec/field_desc.rs:457-463 | registering never takes the registry past its limit |
| `FieldDescs.Decode` | crates/aura-net/src/codec/field_desc.rs:232-255 | one message consumes input and never takes the registry past its limit |
| `FieldDescs.DecodeOnBytes` | crates/aura-net/src/codec/field_desc.rs:232-255 | a top-level description by its tag: absent, a reference, a definition that registers while there is room, or in full |
| `FieldDescs.DecodeMessage` | crates/aura-net/src/codec/field_desc.rs:232-255 | a message means what it says, and only a definition changes the registry |
| `FieldDescs.DecodeStreamMeanings` | crates/aura-net/src/codec/field_desc.rs:232-255 | with room for every id, a stream decodes to its meaning under the sender's dictionary |
| `FieldDescs.WithoutIdsMeansTheSame` | crates/aura-net/src/codec/field_desc.rs:232-255 | writing every reference in full keeps the meaning and needs no ids |
| `FieldDescs.CachingIsTransparent` | crates/aura-net/src/codec/field_desc.rs:232-255 | a stream that defines ids before use, fewer than max_entries, decodes like the stream with every reference in full |
| `FieldDescs.UnderstoodIffNoneLost` | crates/aura-net/src/codec/field_desc.rs:232-255 | from any registry, a lawful stream is decoded to its meaning if and only if the registry agrees with the sender on the ids referred to before they are defined, and no definition referred to later is lost to a full registry |
| `FieldDescs.DefinitionThenReference` | crates/aura-net/src/codec/field_desc.rs:457-463 | a reference after a definition yields it if and only if the registry had room or already held it; a full registry drops even a redefinition |
| `FieldDescs.RedefinitionDropped` | crates/aura-net/src/codec/field_desc.rs:457-463 | with a registry of one entry: an id defined as a double, then as an int, and referred to, is read as the double |
| `FieldDescs.UnknownReference` | crates/aura-net/src/codec/field_desc.rs:238-245 | a reference to an unknown id is an error that names the id and changes nothing |
| `FieldDescs.ReadFull` | crates/aura-net/src/codec/field_desc.rs:289-308 | the reading method agrees with the grammar, in result and cursor |
| `FieldDescs.ReadTypeCode` | crates/aura-net/src/codec/field_desc.rs:310-361 | the same for one type code |
| `FieldDescs.ReadComplexType` | crates/aura-net/src/codec/field_desc.rs:363-427 | the same for a structure, a union, a bounded string or a variant union |
| `FieldDescs.ReadDesc` | crates/aura-net/src/codec/field_desc.rs:232-255 | the top-level method agrees with the grammar and leaves the registry as it says |
| `FieldDescs.WriteDesc` | crates/aura-net/src/codec/field_desc.rs:257-287 | appends the encoding, of which the round trip is proved |
| `Words.CountOnesIsCardinality` | crates/aura-net/src/codec/bitset.rs:167-177 | the population count of a word is the number of members it stands for |
| `BitSet.AfterSet` | crates/aura-net/src/codec/bitset.rs:113-128 | setting a bit of the word vector adds that member to the set |
| `BitSet.AfterClear` | crates/aura-net/src/codec/bitset.rs:130-140 | clearing a bit removes that member |
| `BitSet.AfterToggle` | crates/aura-net/src/codec/bitset.rs:151-165 | flipping a bit is the symmetric difference with it |
| `BitSet.AfterOr` | crates/aura-net/src/codec/bitset.rs:324-336 | wordwise or is union, across words of different number |
| `BitSet.AfterAnd` | crates/aura-net/src/codec/bitset.rs:338-352 | wordwise and is intersection |
| `BitSet.LengthOfWords` | crates/aura-net/src/codec/bitset.rs:253-281 | the byte count the encoder computes from leading zeros is largest member / 8 + 1 |
| `BitSet.WireRoundTrip` | crates/aura-net/src/codec/bitset.rs:206-293 | the wire form is read back with what follows it if and only if its length fits a signed 32-bit size |
| `BitSet.MembersOnBytes` | crates/aura-net/src/codec/bitset.rs:206-293 | 8 j + k is a member if and only if digit k of byte j is one, both of what is sent and of what is received |
| `BitSet.WireIsTrimmed` | crates/aura-net/src/codec/bitset.rs:253-293 | the last byte sent is not zero |
| `BitSet.BitWordIter.Next` | crates/aura-net/src/codec/bitset.rs:383-394 | yields the lowest member left and removes it alone |
| `BitSet.PvaBitSet.WithCapacity` | crates/aura-net/src/codec/bitset.rs:45-53 | an empty set with room for n bits |
| `BitSet.PvaBitSet.FromBits` | crates/aura-net/src/codec/bitset.rs:55-66 | the set of the listed bits, whose count is one past the largest |
| `BitSet.PvaBitSet.AllSet` | crates/aura-net/src/codec/bitset.rs:68-100 | exactly the bits below n, across the inline and overflow words |
| `BitSet.PvaBitSet.IsSetIsMembership` | crates/aura-net/src/codec/bitset.rs:102-111 | the test is membership for every index |
| `BitSet.PvaBitSet.PutWord` | crates/aura-net/src/codec/bitset.rs:213-250 | a word lands in its tier; only one past the end is dropped |
| `BitSet.PvaBitSet.Set` | crates/aura-net/src/codec/bitset.rs:113-128 | adds the index, growing the overflow and the bit count; every member stays below the bit count |
| `BitSet.PvaBitSet.ClearBit` | crates/aura-net/src/codec/bitset.rs:130-140 | removes the index and changes nothing else |
| `BitSet.PvaBitSet.Toggle` | crates/aura-net/src/codec/bitset.rs:151-165 | flips the index and grows the bit count to cover it |
| `BitSet.PvaBitSet.CountSet` | crates/aura-net/src/codec/bitset.rs:167-177 | the cardinality of the set |
| `BitSet.PvaBitSet.WordPositions` | crates/aura-net/src/codec/bitset.rs:372-394 | one word's members in strictly increasing order |
| `BitSet.PvaBitSet.ToVec` | crates/aura-net/src/codec/bitset.rs:188-204 | the members, all of them, strictly increasing |
| `BitSet.PvaBitSet.OrAssign` | crates/aura-net/src/codec/bitset.rs:324-336 | union in place, bit count the larger |
| `BitSet.PvaBitSet.BitAnd` | crates/aura-net/src/codec/bitset.rs:338-352 | intersection as a new set, bit count the smaller |
| `BitSet.PvaBitSet.Encode` | crates/aura-net/src/codec/bitset.rs:253-293 | appends the canonical wire form of the set |
| `BitSet.PvaBitSet.Decode` | crates/aura-net/src/codec/bitset.rs:206-251 | accepts exactly the wire grammar and holds exactly the members of the bytes |
| `BitSet.PvaBitSet.Fill` | crates/aura-net/src/codec/bitset.rs:206-251 | the word-building loop drops no word in spite of its overflow guards |
| `ConfigPollers.EnabledIsKeyed` | crates/aura-discover/src/config_poller.rs:66-71 | the snapshot has exactly the names of the enabled rows, each under its own name |
| `ConfigPollers.LastEnabledRow` | crates/aura-discover/src/config_poller.rs:48-71 | of the enabled rows with one name the last is taken |
| `ConfigPollers.AppliedPointwise` | crates/aura-discover/src/config_poller.rs:97-106 | what applying a list of changes does to one name does not depend on where the name is in the list |
| `ConfigPollers.DifferenceMerges` | crates/aura-discover/src/config_poller.rs:66-109 | applying a difference in any order gives the latest snapshot, up to rows without a change that matters |
| `ConfigPollers.DifferenceByFields` | crates/aura-discover/src/config_poller.rs:73-129 | on the fields of the rows: what is listed as added, removed or modified, and that nothing else is |
| `ConfigPollers.MergedIsCurrent` | crates/aura-discover/src/config_poller.rs:66-131 | afterwards names, heartbeat, enabled and expected_ioc are the latest, and the same snapshot again gives no change |
| `ConfigPollers.ConfigPoller.LoadInitial` | crates/aura-discover/src/config_poller.rs:48-59 | the snapshot becomes the enabled rows; the count is of all rows |
| `ConfigPollers.ListChanges` | crates/aura-discover/src/config_poller.rs:73-94 | lists exactly the changes between two snapshots, at most one for a name, in whatever order the sets give |
| `ConfigPollers.ConfigPoller.Diff` | crates/aura-discover/src/config_poller.rs:66-109 | returns that list and takes it over |
| `Reconcilers.ReconciledBySets` | crates/aura-discover/src/reconciler.rs:76-122 | when each name changes once, the three sets and the names of each action are set formulas of the added, removed and modified names |
| `Reconcilers.OrderIsHarmless` | crates/aura-discover/src/reconciler.rs:76-122 | two lists of the same changes leave the same sets and the same names in each action |
| `Reconcilers.FirstSeenIsNew` | crates/aura-discover/src/reconciler.rs:127-144 | the names to subscribe are the new ones, each once |
| `Reconcilers.FirstSeenInOrder` | crates/aura-discover/src/reconciler.rs:127-144 | names that come later come later in the list of new ones |
| `Reconcilers.WhatKeepsApart` | crates/aura-discover/src/reconciler.rs:76-174 | for each operation on three disjoint sets, exactly when it leaves them disjoint |
| `Reconcilers.NameInTwoSets` | crates/aura-discover/src/reconciler.rs:76-129 | a not-found name that is modified is pending and not found at once |
| `Reconcilers.Reconciler.Reconcile` | crates/aura-discover/src/reconciler.rs:76-122 | the sets and actions are those of the fold over the changes, one action for each list that is not empty |
| `Reconcilers.Reconciler.MarkResolved` | crates/aura-discover/src/reconciler.rs:127-144 | moves the names to resolved and returns those that were not, in order, each once |
| `Reconcilers.Reconciler.MarkNotFound` | crates/aura-discover/src/reconciler.rs:147-161 | moves the names to not found and raises an alert for each that was not there |
| `Reconcilers.Reconciler.MarkDisconnected` | crates/aura-discover/src/reconciler.rs:164-175 | a resolved name becomes pending with an alert; any other is left alone |
| `CommandPublisher.ReplayEach` | crates/aura-discover/src/command_publisher.rs:16-33 | a batch is accepted by a strict receiver if and only if it names each name once and none is in that state already |
| `CommandPublisher.ReplayJoin` | crates/aura-discover/src/command_publisher.rs:95-125 | replaying commands in two parts is replaying them in one |
| `CommandPublisher.CommandEffects` | crates/aura-discover/src/command_publisher.rs:16-33 | what each command changes for a strict receiver, and exactly when it is out of place |
| `CommandPublisher.CommandBatch.Take` | crates/aura-discover/src/command_publisher.rs:117-125 | empties the queue and loses nothing ever queued |
| `Orchestrators.DifferencePlans` | crates/aura-discover/src/orchestrator.rs:100-125 | a difference reconciled leaves resolved and pending together the new names, and asks to unsubscribe exactly the gone ones, each once |
| `Orchestrators.ExecuteResolve` | crates/aura-discover/src/orchestrator.rs:186-200 | a resolve action keeps the receiver in step with the resolved names and the names still to be unsubscribed |
| `Orchestrators.ExecuteUnsubscribe` | crates/aura-discover/src/orchestrator.rs:132-135 | so does an unsubscribe action |
| `Orchestrators.BeginExecuting` | crates/aura-discover/src/orchestrator.rs:123-149 | at the start of the actions the receiver holds what was resolved, and a command will be out of place exactly when a gone name was only pending |
| `Orchestrators.StartupAgrees` | crates/aura-discover/src/orchestrator.rs:75-97 | startup hands every row to the reconciler and only enabled rows to the poller; they agree if and only if every name has an enabled row |
| `Orchestrators.SnapshotOfLastChange` | crates/aura-discover/src/orchestrator.rs:100-121 | the names of the last snapshot are the enabled names of the last tick that reports a change and gets all rows, or of the startup |
| `Orchestrators.StrayUnsubscription` | crates/aura-discover/src/orchestrator.rs:75-162 | a name loaded at startup, its actions not carried out, and missing from the next snapshot: one unsubscribe action for it, and no receiver has subscribed it |
| `Orchestrators.Orchestrator.Startup` | crates/aura-discover/src/orchestrator.rs:75-97 | the poller has the enabled rows, the reconciler waits for all names, and one resolve action names them |
| `Orchestrators.Orchestrator.ResolveBatch` | crates/aura-discover/src/orchestrator.rs:186-224 | the names become resolved and one subscription of the new ones, with the first server, is queued when there are any |
| `Orchestrators.Orchestrator.Execute` | crates/aura-discover/src/orchestrator.rs:123-149 | the loop over the actions keeps the receiver in step and counts what it did |
| `Orchestrators.Orchestrator.CarryOut` | crates/aura-discover/src/orchestrator.rs:123-162 | after the actions and the retry nothing is pending, everything known is resolved, and the receiver has heard it |
| `Orchestrators.Orchestrator.Cycle` | crates/aura-discover/src/orchestrator.rs:100-162 | fails exactly when the first query fails, or the second after a change is reported, changing nothing; otherwise nothing is pending, the resolved names are the known ones, and replaying all commands gives them if and only if no name that was only pending is gone; the counts are sizes of sets |
| `Orchestrators.Orchestrator.FlushCommands` | crates/aura-discover/src/orchestrator.rs:165-183 | empties the queue whether or not publishing works |
| `Orchestrators.Orchestrator.Begin` | crates/aura-discover/src/orchestrator.rs:227-239 | startup and its actions leave nothing pending and the receiver in step |
| `Orchestrators.Orchestrator.Turn` | crates/aura-discover/src/orchestrator.rs:246-257 | one turn of the run loop keeps all of it, and what is queued is published unless the publisher fails |
| `Heartbeats.OldValueComesBack` | crates/aura-ingest/src/heartbeat.rs:125-127 | a concrete history where an unsubscribed id, scanned while it had no interval, later repeats its old value |
| `Heartbeats.StoredAtIsLastRow` | crates/aura-ingest/src/heartbeat.rs:102-105 | the stored instant is the time of the id's latest row, by store or by heartbeat |
| `Heartbeats.NeverOverdue` | crates/aura-ingest/src/heartbeat.rs:140-171 | for a steadily active id the latest row is never an interval older than the latest scan |
| `Heartbeats.ResizedSame` | crates/aura-ingest/src/heartbeat.rs:76-78 | growing the vector changes no id's cell: it is a total map with a blank default |
| `Heartbeats.RowsBelowAreRows` | crates/aura-ingest/src/heartbeat.rs:140-173 | the rows of a scan are those of the ids that call for one, one each, in increasing order |
| `Heartbeats.HeartbeatTracker.SetPvHeartbeat` | crates/aura-ingest/src/heartbeat.rs:71-84 | the table is that of the history with the setting; ids out of range are ignored |
| `Heartbeats.HeartbeatTracker.RecordStore` | crates/aura-ingest/src/heartbeat.rs:86-106 | the table is that of the history with the store; ids out of range are ignored |
| `Heartbeats.HeartbeatTracker.Visit` | crates/aura-ingest/src/heartbeat.rs:140-171 | what the walk does at one slot is the beat of its cell |
| `Heartbeats.HeartbeatTracker.Walk` | crates/aura-ingest/src/heartbeat.rs:137-175 | the walk over the vector emits the rows of all ids up to the cap and leaves the table of the history |
| `Heartbeats.HeartbeatTracker.EmitHeartbeats` | crates/aura-ingest/src/heartbeat.rs:108-176 | one scan with its reload emits exactly the rows its history calls for, none while disabled |
| `Buffers.RefusesForTheLimitIff` | crates/aura-store/src/writer/string.rs:189-205 | a buffer refuses a capture only when what it holds would pass the limit, whatever comes next, if and only if it is empty, nothing was taken from it since its count was zeroed, or it holds as much as the limit |
| `Buffers.RefusedWithRoom` | crates/aura-store/src/writer/mod.rs:343-358 | a concrete run: 1000 bytes of 1024 are pushed and taken, 10 are pushed, and 20 are refused |
| `Buffers.OneCaptureATake` | crates/aura-store/src/writer/mod.rs:343-358 | once the limit is reached, over any further pushes and takes, at most one capture is accepted for each take, and one more |
| `Buffers.OnlyTheFirst` | crates/aura-store/src/writer/mod.rs:152-172 | of the captures that come after a take, once the limit is reached, the first is held and all others are refused |
| `Buffers.NothingElsewhere` | crates/aura-store/src/writer/mod.rs:152-172 | over pushes and takes the count of bytes never falls, and every capture is taken, held or refused |
| `Buffers.Buffer.constructor` | crates/aura-store/src/writer/string.rs:163-179 | an empty buffer; the batch size is at least 1 and the limit at least its minimum |
| `Buffers.Buffer.Push` | crates/aura-store/src/writer/array.rs:232-292 | the buffer of the history with the push; refused exactly when the buffer is not empty and the count would pass the limit, full exactly when accepted up to the batch size; a capture that brings nothing is accepted |
| `Buffers.Buffer.IngestOtherRows` | crates/aura-store/src/writer/mod.rs:152-172 | pushes all captures, looks at no refusal and reports the number of all of them |
| `Buffers.Buffer.TakeRows` | crates/aura-store/src/writer/mod.rs:343-358 | the rows go out and the count of bytes stays |
| `Buffers.Buffer.FlushRows` | crates/aura-store/src/writer/string.rs:208-248 | a flush of its own: rows and count are zeroed if the database takes the rows, and nothing happens when there are none |
| `Buffers.Buffer.DiscardRows` | crates/aura-store/src/writer/string.rs:330-333 | rows and count are zeroed |
| `Flushing.FatesPartition` | crates/aura-store/src/writer/mod.rs:527-621 | every row of a section is committed, kept or lost, and none is two of these |
| `Flushing.ChunksFitConnections` | crates/aura-store/src/writer/mod.rs:541-548 | the rounded-up chunk size is positive and gives at most one chunk for each connection |
| `Flushing.FlushSection` | crates/aura-store/src/writer/mod.rs:527-621 | committed count, rows kept in order, lost count and progress of one section, in one piece or in parallel chunks, and their sum is the section |
| `Flushing.SendChunks` | crates/aura-store/src/writer/mod.rs:549-587 | the chunk loop adds up the committed and lost rows and marks the chunks to retry |
| `Flushing.KeepRows` | crates/aura-store/src/writer/mod.rs:589-597 | filtering by position / chunk_size keeps exactly the rows of the marked chunks |
| `Flushing.BuildPayload` | crates/aura-store/src/writer/json.rs:416-735 | the count that goes with a table's payload: rows, or elements for the tables that take values apart; none when zero |
| `Flushing.FlushJson` | crates/aura-store/src/writer/mod.rs:695-764 | units committed and lost and rows kept over the six tables |
| `Flushing.JsonBalance` | crates/aura-store/src/writer/mod.rs:695-764 | committed, lost and kept differ from the rows given by exactly the surplus of units over rows of the settled tables |
| `Flushing.ConservesIffOnePerRow` | crates/aura-store/src/writer/mod.rs:695-764 | the counts alone balance, whatever the database answers, if and only if every table counts as many units as rows |
| `Flushing.JsonByRows` | crates/aura-store/src/writer/mod.rs:695-764 | for such rows the whole outcome, as rows |
| `Flushing.OneRowCountedForAnother` | crates/aura-store/src/writer/json.rs:487-546 | concrete rows for which the counts balance although one row is neither committed, lost nor kept |
| `Flushing.MiscountedRows` | crates/aura-store/src/writer/json.rs:548-611 | concrete rows that are counted three times or not at all |
| `Flushing.FlushContract` | crates/aura-store/src/writer/mod.rs:631-811 | for a bundle of such rows, section by section every row is committed, lost or in the retry bundle, report and losses count exactly those rows, and the retry bundle is of the same kind |
| `Flushing.FlushWithProgress` | crates/aura-store/src/writer/mod.rs:631-811 | the report, the losses, the retry bundle and the progress of a whole bundle, and the exact balance of its counts, for any rows; no error exactly when nothing is kept or lost |
| `Flushing.FlushByRows` | crates/aura-store/src/writer/mod.rs:631-811 | for any rows in the order accepted and any answers: the rows committed, kept and gone by the fates of their chunks and tables make up the committed, retained and lost sections of the flush, and its report and losses are the database rows they come to |
| `Flushing.FateByAnswer` | crates/aura-store/src/writer/mod.rs:527-621 | which COPY each row is in, by its position, the size of its section and the connections, and that it is committed, kept or lost by the answer to that COPY |
| `Flushing.FateByTable` | crates/aura-store/src/writer/mod.rs:695-764 | what a JSON row of each table comes to, and what the answer to its table makes of it |
| `Flushing.ReportByKind` | crates/aura-store/src/writer/mod.rs:770-811 | each field of the report counts the committed rows of its kind, and each section of the retry bundle holds the kept ones |
| `Flushing.EndedInOrder` | crates/aura-store/src/writer/mod.rs:589-597 | the rows of each fate are those at their positions, in order |
| `Flushing.AllSentCommits` | crates/aura-store/src/writer/mod.rs:631-811 | when the database takes every COPY, every row that comes to anything is committed and none is kept or lost |
| `Flushing.SectionsHoldTheRows` | crates/aura-store/src/writer/mod.rs:343-358 | the sections of a bundle hold exactly the waiting rows: each row as often as it waits, in the section of its kind |
| `Heartbeats.IntervalIsLatestSetting` | crates/aura-ingest/src/heartbeat.rs:71-146 | the interval of an id is the seconds last set for it, or the default when these are below zero or none were set |
| `StoreLoops.ReapedByEnd` | crates/aura-store/src/store_loop.rs:59-135 | the end of a flush in the loop: after an outcome the counters move by the report and the losses of the writer's sections and what comes back is retained for 1, 4, 15, 30 or 60 seconds, or lost with the sixth failure; after a panic they move by the rows reached |
| `StoreLoops.SurplusOfEnd` | crates/aura-store/src/store_loop.rs:68-121 | an outcome moves the surplus by that of the JSON tables its flush settles |
| `StoreLoops.FinishedByEnd` | crates/aura-store/src/store_loop.rs:311-361 | the first phase of the shutdown moves the counters and the database by the end of the flush in flight and retains what comes back, whatever its attempts |
| `StoreLoops.RetriedByEnd` | crates/aura-store/src/store_loop.rs:363-408 | so does the second by the end of the last try, whose leftover is lost |
| `StoreLoops.DrainedByEnd` | crates/aura-store/src/store_loop.rs:410-470 | so does the third by the end of the flush of all that the writer and the buffers hold, whose leftover is lost |
| `StoreLoops.TurnByCases` | crates/aura-store/src/store_loop.rs:137-236 | a turn by cases: a flush in flight stays, a retained bundle starts exactly when its time has come, everything pending starts exactly when a flush is due and neither is there, and rows are taken in, of at most 10,000 messages, exactly when nothing stays retained |
| `StoreLoops.DrainedInOrder` | crates/aura-store/src/store_loop.rs:189-206 | the buffers are emptied one after the other, of each the scalars before the others |
| `StoreLoops.AcceptedInOrder` | crates/aura-store/src/store_loop.rs:208-236 | the rows of captures and messages are theirs, in order |
| `StoreLoops.Delays` | crates/aura-store/src/store_loop.rs:36 | the five delays |
| `StoreLoops.ExtraIsSurplus` | crates/aura-store/src/writer/mod.rs:695-811 | what a flush adds to the surplus is the surplus of elements over rows of the JSON tables it settles, whatever the rows and answers |
| `StoreLoops.FlushTallies` | crates/aura-store/src/store_loop.rs:68-135 | of any end of a flush, also a panic or an abort: every row is committed, lost, in no COPY or left for a retry, and what is counted, with the rows left, is the number of rows and the surplus |
| `StoreLoops.FlushIsExact` | crates/aura-store/src/store_loop.rs:68-135 | when each row comes to one database row, no end of a flush misses a row or counts more or less than rows |
| `StoreLoops.TurnRecords` | crates/aura-store/src/store_loop.rs:56-182 | what a turn adds to the record of bundles: a bundle when a fresh flush starts, a start when retained rows go into flight, a failure when a flush failed for now, the giving up when its rows are not retained, each with its instant, and nothing else |
| `StoreLoops.GivingUpIsLate` | crates/aura-store/src/store_loop.rs:84-113 | rows of a failed flush are given up only at the sixth failure, with six starts behind them, and at least 110 seconds after the first failure |
| `StoreLoops.FinalRetryCounts` | crates/aura-store/src/store_loop.rs:363-408 | the flush of a retained bundle at the shutdown is one attempt more of that bundle, the seventh at most |
| `StoreLoops.InFlight` | crates/aura-store/src/store_loop.rs:137-182 | at every moment rows are in flight or retained, never both, and they are rows of the last bundle recorded, which has one failure before each start but the first |
| `StoreLoops.SixthFailure` | crates/aura-store/src/store_loop.rs:36 | a timetable that keeps the delays has its sixth failure at least 1 + 4 + 15 + 30 + 60 = 110 seconds after the first |
| `StoreLoops.TidyBundle` | crates/aura-store/src/store_loop.rs:84-113 | what the record of a bundle comes to: at most seven attempts, and giving up only at the sixth failure, 110 seconds or more after the first |
| `StoreLoops.ReapStaysSound` | crates/aura-store/src/store_loop.rs:59-135 | in every case of an ended flush, each accepted row stays in one place, bundle by bundle, the counters count, and the timetable is kept |
| `StoreLoops.RestartStaysSound` | crates/aura-store/src/store_loop.rs:137-162 | a retained bundle starts again only after its delay, as one more attempt of the same bundle |
| `StoreLoops.StartStaysSound` | crates/aura-store/src/store_loop.rs:164-182 | a fresh bundle is everything pending and starts only when the one before is settled |
| `StoreLoops.TurnStaysSound` | crates/aura-store/src/store_loop.rs:56-272 | a turn keeps all of it: one bundle at a time, at most six starts, on time; it forgets nothing, and takes nothing in while a bundle stays retained |
| `StoreLoops.RunsStaySound` | crates/aura-store/src/store_loop.rs:56-272 | the same over any number of turns |
| `StoreLoops.ShutdownSettles` | crates/aura-store/src/store_loop.rs:307-470 | from any such state, however the three last flushes end, nothing is pending, in flight or retained, every row of every bundle is committed, lost or in no COPY, and the counters are those of the rows and the surplus |
| `StoreLoops.StoreLoop.Reap` | crates/aura-store/src/store_loop.rs:59-135 | the whole state, with the record of bundles, after an ended flush: success, partial retry, permanent loss, exhaustion or panic |
| `StoreLoops.StoreLoop.ScheduleRetry` | crates/aura-store/src/store_loop.rs:137-162 | starts the retained bundle exactly when nothing is in flight and its delay has passed, and records the start |
| `StoreLoops.StoreLoop.ScheduleFresh` | crates/aura-store/src/store_loop.rs:164-182 | starts everything pending exactly when nothing is in flight or retained and a flush is due, and records the bundle |
| `StoreLoops.StoreLoop.DrainShards` | crates/aura-store/src/store_loop.rs:189-206 | takes in all rows the writer takes of the buffers, scalars before the others of each |
| `StoreLoops.StoreLoop.DrainChannel` | crates/aura-store/src/store_loop.rs:208-236 | takes at most 10,000 messages, and all the rows each of them brings |
| `StoreLoops.StoreLoop.Ingest` | crates/aura-store/src/store_loop.rs:184-236 | takes rows in unless a bundle is retained, and then nothing |
| `StoreLoops.StoreLoop.Turn` | crates/aura-store/src/store_loop.rs:56-272 | the loop body does what the turn function says, whole state and record |
| `StoreLoops.StoreLoop.FinishInFlight` | crates/aura-store/src/store_loop.rs:311-361 | the first shutdown phase, waited or aborted; it never overwrites a retained bundle because none coexists |
| `StoreLoops.StoreLoop.FinalRetry` | crates/aura-store/src/store_loop.rs:363-408 | the second phase: the retained bundle is flushed once more, recorded as such, and not retained again |
| `StoreLoops.StoreLoop.FinalDrain` | crates/aura-store/src/store_loop.rs:410-470 | the third phase: the buffers are emptied and the writer with them |
| `StoreLoops.StoreLoop.Shutdown` | crates/aura-store/src/store_loop.rs:307-470 | the three phases do what the shutdown function says and leave everything settled |
| `StoreLoops.StoreLoop.PushAll` | crates/aura-store/src/writer/mod.rs:152-172 | takes in the rows of each capture, in order |
| `StoreLoops.StoreLoop.FlushOf` | crates/aura-store/src/writer/mod.rs:631-811 | the flush of the writer's sections reports and loses the database rows of the rows committed and gone, and gives back the rows kept |
| `StoreLoops.StoreLoop.JudgeInFlight` | crates/aura-store/src/store_loop.rs:324-360 | what the flush in flight at the shutdown adds to the counters and the bundle it leaves, whatever its attempts |
| `StoreLoops.StoreLoop.JudgeEnd` | crates/aura-store/src/store_loop.rs:68-135 | what an ended flush adds to the counters and the bundle it leaves to be retried |
| `StoreLoops.StoreLoop.LastFlush` | crates/aura-store/src/store_loop.rs:372-408 | what a last flush does not commit is lost, with its retry bundle |

## Left out

- PostgreSQL, Redis, TCP, the COPY payload bytes and tokio's scheduling: their answers and timing are parameters.
- Floating-point rounding, NaN and f32 truncation: heartbeats, intervals and instants are reals or natural numbers.
- Machine widths of counters (u64 and usize overflow) and vector capacities.
- Recursion depth: the type-description parser may exhaust the stack on deep input in the original; here it only terminates.
- Error texts, `Display` and `Debug`, metrics, logging, JSON serialization of commands, the UI and the HTTP API.
- `PvaHeader.validate`, the scalar readers beyond 16 and 32 bits, and the accessors of frames and descriptions: one-branch facts.
- Channel, monitor and connection messages, and value decoding: flat versions of the description round trip.
- `Action::Subscribe` and `Action::Alert` in the orchestrator's action loop: `reconcile` never produces them; alerts are counted, the subscribe arm is not modelled.
- `mark_not_found` and `mark_disconnected` appear in the set lemmas only; the orchestrator never calls them.
- The database update of `expected_ioc` after a resolution, and `last_poll`: which rows the next query reports as changed is a parameter. A query that fails after `last_poll` was moved forward can therefore hide a change until the next one; the results speak of the last snapshot taken.
- Commands that were taken from the queue when publishing failed: the run ends there, and the results speak of everything queued.
- The heartbeat configuration is a new list of settings or none; the pointer comparison that detects it is not modelled.
- Timestamps of heartbeat rows, and the capacity of the shared buffers with its dropped rows: rows enter the accounts when the writer accepts them.
- StoreLoops.StoreLoop.DrainShards: what the writer's buffers refuse by their byte limit is not among the rows the loop is given; `Buffers` says which captures that is.
- In `Buffers`, an array's numbers and texts are in one list, and a flush of the array buffer that sends the numbers and fails on the texts is not modelled: the service takes the rows out instead. The scalar buffer tests what it holds, and whole vectors are appended to it without a test.
- Updates the fallback channel still holds at shutdown, and those whose dispatch fails: they never enter the accounts.
- A flush task that panics or is aborted is assumed to have counted exactly the database rows it committed; in the original a COPY may commit in the moment its task is aborted.
- The time that passes during the shutdown: nothing there depends on it, and its flushes are recorded at the instant the loop ended.
- Waiting and waking of the store loop (sleep, notify, the 30 s timeouts): a turn may come at any time, and a timed-out flush may end in any way.
- BitSet.PvaBitSet.OrAssign: the right-hand side is another object, as borrowing demands in the original.
- BitSet.PvaBitSet.WordPositions: the lazy iterator is modelled by the list it yields.
