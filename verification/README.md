# Verification of libltntstools

libltntstools takes MPEG transport streams apart and puts them together again. This project models its state
machines in Dafny and proves what they are for.

- **Packetize, watch, reassemble, parse.** `Packetizer` cuts bytes into 188-byte packets; `TsSyntax` holds the packet
  accessors against the standard's tables; `Stats` judges the continuity counters; `KLRingBuffer`, `Reassembly` and
  `PesExtractor` rebuild PES units from arbitrary, lossy streams, `RingRoom` is about which units the growing ring has
  room for and `Losses` about which losses cost a unit; `OrderedOutput` and `Reordering` put them in order of
  unwrapped PTS; `Bits`, `Bitstream`, `Fields`, `Pes`, `PesBytes`, `PesParse` and `PesMarkers` are the bit reader and
  writer and the PES header. `Pipeline` and `OrderedPipeline` put the stages together: what goes in comes out.
  `Loopback` runs the packetizer into the extractor.
- **The PCR smoother.** `SmootherIntake` is what the producer does with its packets; `SmootherProtocol` has the two
  threads' critical sections, each an atomic step; `SmootherSafety` proves what every interleaving keeps;
  `Interpolation` and `Stamps` are about the PCR stamps; `SmootherEndToEnd` joins intake and protocol, and
  `PacketStamps` follows the stamps through both to the callback; `SmootherSchedule` is about when items are sent,
  `ScrTimes` puts the stamps in terms of true times across the clock's wrap, and `SmootherRebase` is about new
  timebases.
- **Clocks.** `Clocks` and `CorrectedClock` unwrap a modular counter in two ways; each is compared with the true
  timeline.
- **Supporting algorithms.** The circular list (`XorgList`), CRC-32 (`Crc32`), the "Not So Naive" search and the NAL
  splitter (`MemMem`, `NalH264`), Exp-Golomb codes (`ExpGolomb`), one-packet PAT and PMT (`Psi`, `PsiReader`) and the
  section extractor (`SectionExtractor`, `SectionCalls`, `SectionShapes`).

Objects whose fields the C code updates are classes here, and their methods are proved equal to steps of a
specification on values; the lemmas are about those specifications. Bytes are integers below 256 and masks and shifts
are remainders and quotients, except in `Crc32`, where registers are 32-bit vectors. Ticks, sizes and counters are
unbounded integers; C's truncating division is written out (`CArith`). Time, packet arrival and the order in which
threads take the mutex are parameters. `abort()` is a flag after which an object does nothing.

## What the proofs turned up

Where the code does not do what its comments or names promise, the model follows the code, and the condition under
which it keeps the promise is proved.

- `MAX_PTS_VALUE` is 2^33 - 1, one less than the modulus of a PTS: `set_ticks` on a 90 kHz clock loses a tick at every
  wrap (`Clocks.PtsLosesATickPerWrap`). With the right wrap value a clock follows a timeline if and only if it reads
  every wrap, which it does when the sample behind the wrap is below a fiftieth of the one before
  (`Clocks.FollowsExactlyWhen`). Steps below a fiftieth of the wrap make sure of that, and no larger bound on them
  does (`Clocks.FollowsAllExactlyWhen`).
- The "monotonic" time can go back: at the first ticks after a marked discontinuity, or after a backward jump and an
  advance past the wrap (`Clocks.GoesBackExactlyWhen`, `Clocks.MonotonicTimeCanGoBack`).
- `klbs_write_buffer_complete` runs its loop once too often and leaves a stray zero bit in the register;
  `klbs_peek_bits` compares a bit count with a byte count, which only raises the overrun flag; the overrun flag of the
  readers goes up when the last byte is loaded, not past it.
- A duplicate packet, which the standard allows, counts as a continuity error (`Stats.DuplicateCounts`).
- The CC error count the extractor watches is that of the whole stream, though the comment there speaks of its PID: a
  unit is handed over if and only if that count is the same at both ends of it, and a loss on any PID discards it
  (`Losses.HandedExactlyWhen`, `Losses.AnyGapDiscards`, `Losses.OtherPidsLossDiscards`).
- The extractor's aborts can be reached: if and only if some whole unit has 1 to 15 bytes, or overflowed the ring
  while it went in, which `rb_write_with_state` reports and the continuation branch ignores
  (`Reassembly.AbortsExactlyWhen`, `Reassembly.OverflowGivesUp`, `Reassembly.ShortGivesUp`). A unit need not be near
  the ring's limit to overflow it: growth is by 128 times the write, and refused when that would pass the limit.
- Ordered output is a stable sort if and only if no PES overtakes sixty or more. A PES whose unwrapped PTS is 0 does
  not wait, which harms no order (`Reordering.SortsExactlyWhen`, `Reordering.ZeroKeyLeavesAtOnce`). Its keys are the
  true times if and only if none lies before the start of the wrap in which the first does; a first PTS near 0
  followed by an earlier one is out of order (`OrderedPipeline.KeysAreTimes`, `OrderedPipeline.BackBeforeStart`).
- For a plain header, pack then parse is the identity if and only if `PES_packet_length` agrees with the packet or
  does not cover the header (`PesParse.PackThenParse`). A timestamp with a marker bit clear reads as -1, and the
  payload after it is misplaced if and only if that is one of the first two of its three markers
  (`PesMarkers.TimestampExactly`, `PesMarkers.PayloadInPlace`, `PesMarkers.MarkerClearMisplaces`).
- A packed PES with timestamps and no payload is never delivered, since the overrun flag is up when its last byte has
  been read (`Pipeline.PackedDeliveredExactly`).
- A recorded interval below zero, from a PCR that steps back without a wrap, can put the smoother's busy list out of
  order (`SmootherSafety.QueueKeepsOrder`, `SmootherEndToEnd.SteppingBackDisorders`).
- The smoother gives its callback a PCR for every packet, counted on from the chunk's stamp. Past the clock's wrap
  those are no values of the clock, while the next chunk's stamp is (`PacketStamps.PastTheWrap`).
- `ltntstools_scr_diff` does not always return a positive number: it reads a wrap if and only if it lies less than
  five seconds back (`ScrTimes.ScrDiffExactly`).
- `find_headers` looks at the byte behind a start code that ends the buffer, if and only if the buffer has more than
  three bytes and that start code does not directly follow another (`NalH264.FindHeaders`).
- `read_ue` reads a truncated code as 2^z - 2 and `read_se` cannot report an error (`ExpGolomb.TruncatedReads`,
  `ExpGolomb.ErrorsReadZero`).
- The PAT and PMT builders compare the version with one instead of shifting it by one; `Psi.VersionLost` and
  `Psi.PmtVersionLost` say exactly what is left of it. With a flag of 0 or 1, version and flag both read back right
  only for a multiple of 32 with the flag set (`Psi.VersionReadsAs`, `Psi.PmtVersionReadsAs`).
- The section extractor reports a table as valid if and only if the last packet of the PID in the call is the one that
  completes it (`SectionExtractor.LastPacketDecides`). For n copies of a one-packet table in one call to a fresh
  extractor that is when n is odd (`SectionExtractor.CopiesReport`). A table that is not asked for makes it refuse the
  next one: with one copy in each call, every other call reports nothing (`SectionCalls.EveryOtherCall`). The query
  wants room for three bytes more than the section, and copies as many (`SectionExtractor.Extractor.Query`).
- A section of more than 366 bytes loses a byte: 183 of the 184 bytes of a packet that goes on with one are copied
  (`SectionShapes.TwoPacketsSuffice`, `SectionShapes.ThirdPacketLosesAByte`). One that begins in the last eight bytes
  of a packet is passed over (`SectionShapes.LateSectionSkipped`).

## Model

| member | source | states |
|---|---|---|
| TsPacket.PcrRoundTrip | src/ts.c:12-28 | six PCR bytes built from a 27 MHz value read back as that value modulo the clock's wrap, for every value |
| TsPacket.FieldRoundTrip | src/ts.c:12-74 | any base and any extension below 300 survive the 33/6/9-bit packing |
| TsSyntax.HeaderByTable | src/libltntstools/ts.h:63-160 | for every packet, each accessor gives the bits of the header that section 2.4.3.2 of ISO/IEC 13818-1 lists for it |
| TsSyntax.PayloadByTable | src/pes-extractor.c:519-524 | payload begins behind the header, or behind an adaptation field of the length in its first byte |
| TsSyntax.FlagsByTable | src/ts_packetizer.c:107-116 | random access, priority and PCR flag are the bits that section 2.4.3.4 has |
| TsSyntax.PcrByTable | src/ts.c:12-55 | for every packet: a PCR is found if and only if sync byte, adaptation field, its length and its flag say so, and is 300 times the 33 bits of base and the 9 of extension |
| TsSyntax.FieldByTable | src/ts.c:57-74 | the six bytes written have base and extension in their bits and the six reserved ones set |
| Packetizer.WellMade | src/ts_packetizer.c:89-204 | a header of the shape the loop writes, followed by payload, is a packet whose accessors give the PID, counter, indicators and PCR asked for, with stuffing of all ones |
| Packetizer.AddPcr | src/ts_packetizer.c:118-151 | the first packet's adaptation field with PCR: the PCR reads back, the payload fills what is left, stuffing only in a short packet |
| Packetizer.AddIndicators | src/ts_packetizer.c:153-175 | the adaptation field for indicators without a PCR |
| Packetizer.AddPlain | src/ts_packetizer.c:177-198 | a packet without either: no adaptation field when 184 bytes are left, stuffing otherwise |
| Packetizer.WritePacket | src/ts_packetizer.c:89-204 | one turn of the loop fills one packet, touches no other byte of the output, and takes as much payload as the packet has room for; a full packet carries no stuffing |
| Packetizer.TsPacketizerWithPcr | src/ts_packetizer.c:70-209 | accepts exactly the inputs it should; the packets carry the bytes end to end, start indicator, PCR and indicators on the first and no other, counters one apart modulo 16; each packet carries exactly what its adaptation field leaves room for, the last one the rest; exactly as many packets as the capacities force, never more than the allocation holds; the counter handed back follows on |
| Stats.TotalIsSum | src/stats.c:429-503 | the stream's error total is the packets out of sync plus the sum of the PIDs' own errors, for every list of packets and every list of PIDs that covers it |
| Stats.ErrorsAreGaps | src/stats.c:125-140 | whatever was lost, doubled or swapped, with payload or without: with d the step from one arrived packet's number to the next, the errors counted are the steps where d is not 1 modulo 16, less those to a packet without payload where it is 0 |
| Stats.NothingLostNoErrors | src/stats.c:125-140 | if nothing was lost, payload packets and bare adaptation fields in any mixture make no error |
| Stats.DuplicateCounts | src/stats.c:133-134 | a duplicate of a payload packet, which section 2.4.3.3 of ISO/IEC 13818-1 allows, makes one |
| Stats.CountedPids | src/stats.c:497-503 | every PID has exactly those errors counted, but 8191, which has none |
| Stats.StreamStatistics.Update | src/stats.c:380-503 | whatever the batches, the running total is the specified count of the whole history, and every PID's record (packets, last counter, errors) is that of its own packets |
| Stats.StreamStatistics.CountPacket | src/stats.c:429-503 | one packet adds exactly the error it makes, and the tables stay in agreement |
| Stats.StreamStatistics.PidArrayAdd | src/stats.c:666-680 | the array stays free of duplicates and never exceeds 8192, so its limit branch is never taken |
| Stats.StreamStatistics.SetContainsPcr | src/stats.c:1026-1049 | marks the PID, adds it to both tables if it is new, and leaves every count alone |
| Stats.StreamStatistics.Totals | src/stats.c:380-503 | in every reachable state the total equals the sum over the PID array plus the unsynced packets, and the array lists exactly the known PIDs |
| KLRingBuffer.RingBuffer.New | src/klringbuffer.c:18-42 | nothing for a size of 0 or above the limit, otherwise an empty ring of the size asked for |
| KLRingBuffer.RingBuffer.Empty | src/klringbuffer.c:102-111 | empties the ring and puts its head at 0 |
| KLRingBuffer.RingBuffer.Grow | src/klringbuffer.c:128-141 | grows exactly when the limit allows; contents are kept unless they wrap |
| KLRingBuffer.RingBuffer.ShrinkReset | src/klringbuffer.c:143-148 | an empty ring of the initial size |
| KLRingBuffer.RingBuffer.Store | src/klringbuffer.c:150-201 | a write that has room appends, across the wrap too |
| KLRingBuffer.RingBuffer.Discard | src/klringbuffer.c:242-253 | drops exactly the oldest bytes |
| KLRingBuffer.RingBuffer.WriteWithState | src/klringbuffer.c:165-203 | append, or on overflow drop exactly as many of the oldest bytes and append; growth by 128 times the write, only when there is no room and the limit allows; bounds on head and fill kept |
| KLRingBuffer.RingBuffer.Reader | src/klringbuffer.c:255-313 | read and peek return the prefix; peek changes nothing; reading the ring empty resets its allocation |
| Reassembly.RunTracks | src/pes-extractor.c:450-580 | over any stream, unless the process gave up: what has been handed over is the list of whole units, and what is in hand is the payload of the open unit; in any case the ring holds no more than that and no more than its size |
| Reassembly.HandedAreUnits | src/pes-extractor.c:314-324 | on arbitrary lossy streams and any usable ring, exactly the whole units of the stream up to the packet where the process aborted, if it did, reach the parser, in order |
| Reassembly.HandedIsWhole | src/pes-extractor.c:482-576 | every byte string that reaches the parser is the concatenated payload from one start packet up to the next, with no change of the error count in between |
| Reassembly.NoUnitMissed | src/pes-extractor.c:482-576 | unless the process aborted, no whole unit is missed |
| Reassembly.AbortsExactlyWhen | src/pes-extractor.c:314-324 | on any lossy stream and any usable ring, the process gives up if and only if some whole unit has 1 to 15 bytes, or met the failing branch of the ring's growth (`bytes > size - fill && size + 128 * bytes > max`) while it went in |
| Reassembly.CountAgreesExactlyWhen | src/pes-extractor.c:450-576 | while a unit is being put together, the count equals the ring's fill if and only if no packet of it met that branch |
| Reassembly.OverflowGivesUp | src/pes-extractor.c:314-324 | a ring of 368 bytes that may hold 10000, given a unit of three full packets, 552 bytes: it overflows and the process gives up |
| Reassembly.ThreePacketsGiveUp | src/klringbuffer.c:165-203 | that unit in a ring of 368 bytes with any limit: the process gives up if and only if the limit is below 23920, one growth of 128 payloads |
| Reassembly.ShortGivesUp | src/pes-extractor.c:326-330 | a unit of five bytes gives up on every ring, with no overflow in it |
| Reassembly.NeverAborts | src/pes-extractor.c:314-324 | a condition on sizes alone that suffices: every unit 16 bytes or more and either within the first allocation or 128 packets' payload below the limit; then no abort, and the count is always the fill |
| Reassembly.OversizeStops | src/pes-extractor.c:314-324 | one case of it by size alone: a unit larger than the ring's limit always ends in the abort, and is never delivered damaged |
| RingRoom.AllFitHoweverCut | src/klringbuffer.c:165-203 | units of those sizes find room one after another, however they are cut into payloads |
| Reassembly.HandedFit | src/pes-extractor.c:314-330 | everything handed over is at least 16 bytes and at most the ring's limit |
| Losses.HandedExactlyWhen | src/pes-extractor.c:482-499 | a unit of the PID is handed over at the next start, with exactly the bytes the PID carried in between, if and only if the error count of the whole stream is the same at both starts |
| Losses.AnyGapDiscards | src/pes-extractor.c:482-499 | so one continuity error on any PID between the two costs this PID its unit |
| Losses.OtherPidsLossDiscards | src/pes-extractor.c:482-499 | four packets in which PID 32 loses nothing and PID 33 does, after which PID 32's unit is not handed over, whatever the ring; the comment speaks of the PID being extracted |
| PesExtractor.PesExtractor.AppendToRing | src/pes-extractor.c:527-576 | payload into ring and count together, overflow reported exactly when it happens |
| PesExtractor.PesExtractor.Deliver | src/pes-extractor.c:386-420 | straight to the callback, or through the ordered list under the unwrapped PTS |
| PesExtractor.PesExtractor.ParseAndDeliver | src/pes-extractor.c:341-432 | one unit: if its parse is followed, what the parser makes of it is what is delivered, and nothing if that is an error |
| PesExtractor.PesExtractor.ProcessRing | src/pes-extractor.c:314-440 | hands the ring's bytes to the parser or gives up, exactly as the unit machine says; callbacks as there |
| PesExtractor.PesExtractor.StartUnit | src/pes-extractor.c:534-576 | a new unit: the old one is processed, the ring emptied, the new payload stored; callbacks as there |
| PesExtractor.PesExtractor.Accept | src/pes-extractor.c:482-576 | one packet of the PID moves the object's state exactly one step of the unit machine; callbacks as there |
| PesExtractor.PesExtractor.WritePacket | src/pes-extractor.c:450-580 | statistics see every packet; the object's state is the unit machine's run over the PID's packets so far; callbacks as there |
| PesExtractor.PesExtractor.Write | src/pes-extractor.c:450-580 | any batch: the state is that of the whole history, whatever the batching, and the callbacks are those of the units handed over, if their parses are followed |
| Pipeline.CleanStream | src/stats.c:125-140 | consecutive counters on one PID, adaptation-only packets in between that repeat them, interleaved with error-free PIDs, make no continuity error |
| Pipeline.BarePassedOver | src/pes-extractor.c:501-503 | where no error is counted, adaptation-only packets change nothing in the extractor |
| Pipeline.PacketizationIsCut | src/ts_packetizer.c:70-209 | what the packetizer promises is what the extractor needs |
| Pipeline.UnitsComeOut | src/pes-extractor.c:482-576 | units of any sizes, cut in turn with one running counter: if all but the last have 16 bytes and the ring, growing as it does, has room for each packet, they come out whole and in order, the last one waiting; if not, the process gave up or the ring has lost bytes of the unit in it |
| Pipeline.EndToEnd | src/pes-extractor.c:450-580 | packetize any byte strings on one PID, interleave with any error-free PIDs and with adaptation-only packets of its own, extract: exactly those byte strings reach the parser, whole and in order, all but the last, which is in the ring, if and only if the sizes of the packets' payloads are ones the ring has room for and none but the last string is under 16 bytes |
| Pipeline.ExtractorHandsOver | src/pes-extractor.c:450-580 | the same of an extractor object in both directions, however its packets were batched |
| Pipeline.PesEndToEnd | src/pes.c:76-460 | pack, packetize, interleave, extract, parse: the callback gets the PES that were packed, in order, all but the last, for every list the ring has room for |
| Pipeline.PackedDeliveredExactly | src/pes-extractor.c:369-386 | a packed PES whose length agrees is delivered as it is, if and only if it has payload or nothing behind the fixed header: without payload, timestamps raise the reader's overrun flag, and it is dropped |
| Pipeline.SizesSuffice | src/klringbuffer.c:165-203 | units that fit by their sizes alone are ones the ring has room for, however they are cut |
| Loopback.CutUnit | src/ts_packetizer.c:70-209 | the packetizer's own packets for any PCR and indicators, their counters running on from the units before, and the size of each one's payload from the options alone |
| Loopback.CutAll | src/ts_packetizer.c:70-209 | so for a list of units with options of their own, sharing a counter |
| Loopback.SendAndReceive | src/pes-extractor.c:450-580 | the whole path as a program: any byte strings with any PCRs and indicators, packetized with a shared counter and written to a new extractor. From sizes and options alone it is known which: all but the last have reached the parser, whole and in order, and the last is in the ring; or the process gave up or the ring has lost bytes of the last |
| Loopback.SendPes | src/pes-extractor.c:450-580 | when those byte strings are packed PES, the callback has been given those PES, in order, all but the last |
| OrderedOutput.OrderedList.constructor | src/pes-extractor.c:81-132 | sixty empty slots |
| OrderedOutput.OrderedList.FindOldest | src/pes-extractor.c:167-184 | the first of the smallest keys |
| OrderedOutput.OrderedList.ListInsert | src/pes-extractor.c:145-165 | in front of the first slot that is later or empty, and nowhere else |
| OrderedOutput.OrderedList.Arrive | src/pes-extractor.c:386-414 | the list is a sorted filled prefix and empty slots, before and after; what goes out is the minimum held |
| OrderedOutput.OrderedList.FlushOrderedOutput | src/pes-extractor.c:240-262 | everything held, smallest first |
| Reordering.InsertedSorted | src/pes-extractor.c:145-165 | insertion keeps the held entries sorted and adds one |
| Reordering.FillsFirst | src/pes-extractor.c:386-414 | with positive keys nothing goes out until all sixty slots are filled, then one for each arrival (the pigeonhole step) |
| Reordering.OnlyZerosOut | src/pes-extractor.c:386-414 | for all keys the clock can give: until sixty are held, nothing but keys of zero has gone out |
| Reordering.NothingLost | src/pes-extractor.c:145-184 | for any non-negative keys, emissions and final flush are a permutation of the arrivals and what is held is sorted |
| Reordering.SortsExactlyWhen | src/pes-extractor.c:386-414 | for all keys the clock can give, zero among them: the output is a stable sort of the arrivals if and only if no arrival overtakes sixty or more |
| Reordering.SortsWhenNearlySorted | src/pes-extractor.c:386-414 | so if no PES is smaller than one that came sixty or more places earlier, the output is a non-decreasing stable permutation |
| Reordering.ZeroKeyLeavesAtOnce | src/pes-extractor.c:386-414 | a key of zero, which is also what an empty slot has, goes out with the next arrival, which harms no order |
| OrderedPipeline.OutletReorders | src/pes-extractor.c:386-420 | the extractor's ordered callbacks are the reordering of the keys its corrected clock gives |
| OrderedPipeline.OrderedEndToEnd | src/pes-extractor.c:240-262 | pack to ordered callbacks and flush: all PES but the last, none lost or doubled, and in stable order of unwrapped PTS if and only if none overtakes sixty, whatever their PTS |
| OrderedPipeline.KeysAreTimes | src/clocks.c:359-410 | for PTS that sample true times modulo 2^33 in steps below half of it: the key of each PES is its true time less the start of the first wrap, if and only if none lies before that start |
| OrderedPipeline.OrderedByTruePts | src/pes-extractor.c:240-262 | so the callbacks are in order of true PTS, across wraps and steps back and from a first PTS of 0 on, if and only if no PES has sixty or more earlier ones of a later true PTS |
| OrderedPipeline.BackBeforeStart | src/clocks.c:359-410 | two PES, the second 2000 ticks before the first and before the start of its wrap: the clock begins again, and the earlier one comes out last |
| Bits.BitsRoundTrip | src/libltntstools/klbitstream_readwriter.h:242-299 | the low bits of a number, written high bit first, read back as the number modulo two to the width |
| Bitstream.BitStream.constructor | src/libltntstools/klbitstream_readwriter.h:123-152 | a stream at the start of its buffer |
| Bitstream.BitStream.WriteBit | src/libltntstools/klbitstream_readwriter.h:159-202 | one bit behind what is written; the overrun flag tells whether the buffer was full |
| Bitstream.BitStream.WriteBits | src/libltntstools/klbitstream_readwriter.h:242-252 | the low bits, highest first |
| Bitstream.BitStream.WriteBufferComplete | src/libltntstools/klbitstream_readwriter.h:274-299 | the stored bytes are what was written and zeros to the byte boundary; one stray zero bit stays in the register |
| Bitstream.BitStream.ReadBit | src/libltntstools/klbitstream_readwriter.h:306-349 | the bit at the position |
| Bitstream.BitStream.ReadByteAligned | src/libltntstools/klbitstream_readwriter.h:355-372 | the byte at the position |
| Bitstream.BitStream.ReadBits | src/libltntstools/klbitstream_readwriter.h:378-398 | the value of the bits at the position, the same on the byte-aligned fast path as in the loop |
| Bitstream.BitStream.PeekBits | src/libltntstools/klbitstream_readwriter.h:423-440 | what the next read returns, position unmoved |
| Fields.FieldAt | src/libltntstools/klbitstream_readwriter.h:242-252 | where a field of a list lies, and what it reads as |
| Fields.WriteAll | src/libltntstools/klbitstream_readwriter.h:242-299 | any list of fields that fits is laid out in order |
| Fields.ReadAll | src/libltntstools/klbitstream_readwriter.h:378-398 | reading the same widths gives each value modulo its range |
| Fields.WriteThenRead | src/libltntstools/klbitstream_readwriter.h:242-398 | write any list of fields that fits, complete the buffer, read the same widths: every value modulo two to its width |
| Pes.PutTimestamp | src/pes.c:45-55 | tag, 33 bits and markers in their places |
| Pes.Pack | src/pes.c:76-226 | header, timestamps and payload behind what was written; the bit count returned is what was written |
| PesBytes.PackedBytes | src/pes.c:45-226 | byte for byte what a packed PES is, as section 2.4.3.6 of ISO/IEC 13818-1 lays it out: header, flags, tagged timestamps, copy information, payload |
| PesBytes.FixedBits | src/pes.c:93-199 | in particular the '10' behind the length, the tags 2, or 3 and 1, and every marker bit |
| PesParse.ReadTimestamp | src/pes.c:57-74 | 33 bits when every marker is set, -1 when one is not |
| PesParse.TimestampReads | src/pes.c:45-74 | a timestamp below 2^33 written is the timestamp read, wherever it lies |
| PesParse.Parse | src/pes.c:228-460 | for every buffer: the parse, the truncation and overrun flags and the bit count are those of the specification |
| PesParse.PayloadStart | src/pes.c:286-455 | whatever the markers, the parse comes to the payload at a byte boundary, so that its loop for the other case is never entered |
| PesParse.WithoutPayload | src/pes.c:419-424 | asked to leave the payload out, the parse gives all the rest the same, for every buffer |
| PesParse.OtherStreams | src/pes.c:251-258 | for every buffer, the fourth byte alone decides whether there is a full header, and which eight stream ids have none |
| PesParse.NeverTruncated | src/pes.c:244-249 | the truncation flag is never raised for a plain header: the length has been cut to the buffer before |
| PesParse.ParsesPacked | src/pes.c:228-460 | what the parse of a packed packet is for every PES_packet_length: the length is clamped to the buffer and cuts the payload |
| PesParse.PackThenParse | src/pes.c:76-460 | pack then parse is the identity on header fields, PTS, DTS and payload with equal bit counts if and only if PES_packet_length agrees with the packet or is too small to cover the header (0 above all) |
| PesMarkers.TimestampExactly | src/pes.c:57-74 | a timestamp reads as -1 if and only if one of its three markers is clear, and stops short if and only if one of the first two is |
| PesMarkers.PayloadInPlace | src/pes.c:286-302 | for every plain header: the parse is where the counted header bits say when it comes to the payload if and only if the first two markers of each timestamp it reads are set, and short of it otherwise |
| PesMarkers.TimesExactly | src/pes.c:286-302 | and PTS or DTS is -1 if and only if one of the three markers it read is clear |
| PesMarkers.MarkerClearMisplaces | src/pes.c:57-74 | every buffer that begins with a certain header of ten bytes: the PTS is -1, and the payload handed out begins four bytes early, inside the header |
| Clocks.Clock.EstablishTimebase | src/clocks.c:84-108 | everything back to zero and the wrap value that goes with the rate: 2^33 - 1 for 90 kHz, 2^33 * 300 for 27 MHz, 2^32 for any other |
| Clocks.Clock.EstablishWallclock | src/clocks.c:115-127 | time starts at the ticks given, with no wrap behind it |
| Clocks.Clock.SetTicks | src/clocks.c:129-170 | forward, wrap, discontinuity and backward jump as specified, the two jump counters included |
| Clocks.Clock.MarkDiscontinuity | src/clocks.c:197-205 | the next ticks start a new reference |
| Clocks.Clock.AddTicks | src/clocks.c:216-237 | advances or goes back through any number of wraps; the two loops are the specified recursion |
| Clocks.RunAccounted | src/clocks.c:129-237 | over any run of the three calls, monotonic time is the reference plus wraps times the wrap value, and the current time never passes the reference |
| Clocks.RunStarts | src/clocks.c:129-205 | over any run: the time established is that of the last start, a mark is pending if and only if no ticks have come since, and every mark is counted |
| Clocks.GoesBackExactlyWhen | src/clocks.c:129-237 | in any state a run can reach, the calls that take monotonic time back: a tick value below it when a discontinuity is pending, or else one that is read as a wrap while the reference is more than a wrap above it, and no other call |
| Clocks.AdvanceMoves | src/clocks.c:216-237 | adding ticks, in any state, moves monotonic time by them if they are positive and not at all otherwise |
| Clocks.AdvanceExactly | src/clocks.c:216-237 | the current time moves by the ticks on the ring of the wrap value, the reference with it, and the wraps passed are counted, or taken back as far as there are any |
| Clocks.JumpsExactly | src/clocks.c:146-166 | where no wrap is read: a forward jump is counted if and only if the ticks pass the reference by more than a fifth of a second, a backward one if and only if they go back by less than half a second |
| Clocks.MonotonicTimeCanGoBack | src/clocks.c:129-237 | a run in which the "monotonic" time goes back |
| Clocks.NeverBack | src/clocks.c:129-170 | fed raw ticks below the wrap and nothing else, it never does |
| Clocks.CountedExactlyWhen | src/clocks.c:129-170 | any timeline that does not go back, sampled modulo any modulus: the clock never counts more wraps than there were, and has counted all of them if and only if there was never more than one between two samples and each was read, the sample behind it being below a fiftieth of the one before |
| Clocks.FollowsExactlyWhen | src/clocks.c:129-170 | for each such timeline, in steps of any size: the monotonic time is the true time in the end if and only if each wrap was read |
| Clocks.SmallStepsRead | src/clocks.c:129-170 | steps below a fiftieth of the modulus make sure that each wrap is read |
| Clocks.FollowsAllExactlyWhen | src/clocks.c:129-170 | every timeline with steps of at most `step` is followed if and only if 50 times that bound is below the wrap value |
| Clocks.LostForGood | src/clocks.c:129-170 | a clock that is right at the end was right at every sample before |
| Clocks.FollowsTimeline | src/clocks.c:129-170 | if each wrap is read, nothing is lost but the difference of the two moduli at each wrap, for any modulus and any wrap value |
| Clocks.BigStepMissed | src/clocks.c:129-170 | for every larger bound there is a timeline within it that is lost |
| Clocks.PtsLosesATickPerWrap | src/clocks.c:84-170 | a 90 kHz clock loses exactly one tick for every wrap of a PTS it reads, because its wrap value is 2^33 - 1 |
| Clocks.PcrFollowed | src/clocks.c:84-108 | a 27 MHz clock follows every PCR timeline modulo 2^33 * 300, and one of any other rate but 90 kHz every timeline modulo 2^32, exactly, if each wrap is read |
| CorrectedClock.CorrectedClock.Init | src/clocks.c:335-357 | accepts 90 kHz only |
| CorrectedClock.CorrectedClock.Update | src/clocks.c:359-410 | the specified step; an uninitialised clock refuses |
| CorrectedClock.RunInvariant | src/clocks.c:318-419 | after any samples the unwrapped value is not negative and congruent to the last one modulo 2^33, and the corrected value is the running maximum since the last reset |
| CorrectedClock.FollowsTimeline | src/clocks.c:318-419 | steps from -2^32 up to 2^32 are followed exactly, forwards and back, over any number of wraps |
| SmootherProtocol.DuePrefixIs | src/smoother-pcr.c:339-364 | the walk along the busy list stops exactly at the first item not due |
| SmootherProtocol.Smoother.constructor | src/smoother-pcr.c:549-605 | a free list of the size asked for and nothing else |
| SmootherProtocol.Smoother.GrowFree | src/smoother-pcr.c:650-662 | sixty-four new items, counted |
| SmootherProtocol.Smoother.TakeFreeItem | src/smoother-pcr.c:646-675 | first critical section of write2 |
| SmootherProtocol.Smoother.FillItem | src/smoother-pcr.c:677-712 | between the sections: the timebase is set if there is none, and the item scheduled by it |
| SmootherProtocol.Smoother.EnqueueItem | src/smoother-pcr.c:714-751 | second critical section: numbered, rescheduled if it would precede the last, queued |
| SmootherProtocol.Smoother.MoveDue | src/smoother-pcr.c:339-364 | exactly the due prefix moves |
| SmootherProtocol.Smoother.MakeLoc | src/smoother-pcr.c:339-364 | the consumer's first critical section |
| SmootherProtocol.Smoother.EmitNext | src/smoother-pcr.c:425-453 | one callback: the item, and for each of its packets the PID, the offset and a PCR counted on from the item's stamp |
| SmootherProtocol.Smoother.AccountNext | src/smoother-pcr.c:455-467 | the bytes leave the count; reports the "seq err" branch |
| SmootherProtocol.Smoother.ReturnItems | src/smoother-pcr.c:470-480 | spent items to the free list, in order |
| SmootherSafety.SafeStep | src/smoother-pcr.c:400-753 | every step of either thread keeps conservation, counters, byte order, numbering and pacing |
| SmootherSafety.AlwaysSafe | src/smoother-pcr.c:400-753 | so does every interleaving of any length |
| SmootherSafety.BytesInOrder | src/smoother-pcr.c:400-753 | in every reachable state, bytes sent, grabbed, queued and in hand are the bytes given, in order |
| SmootherSafety.NoSeqErr | src/smoother-pcr.c:462-467 | items leave numbered 0, 1, 2, ...; the "seq err" branch is unreachable |
| SmootherSafety.NothingLeaks | src/smoother-pcr.c:646-751 | every allocation is in exactly one place; free, busy, grabbed and in hand add up to totalItems; the three counters equal what they count |
| SmootherSafety.GrowsBySixtyFour | src/smoother-pcr.c:650-662 | every step: sixty-four items more when a chunk comes and none is free, and never otherwise |
| SmootherSafety.TakenInOrder | src/smoother-pcr.c:650-677 | every run: the items taken from the free list are those that became free, in the order they did |
| SmootherSafety.HeadAndTail | src/smoother-pcr.c:339-364 | of the two stamps latency is measured by, one is the last filled in and the other the first in the queue when a pass begins |
| SmootherSafety.QueueKeepsOrder | src/smoother-pcr.c:728-747 | queueing leaves the busy list in order if and only if it was, and the item is not late or the recorded interval does not go back a microsecond |
| SmootherSafety.AlwaysScheduled | src/smoother-pcr.c:728-747 | the busy list is sorted by scheduled time in every reachable state, across new timebases, when recorded intervals are non-negative |
| SmootherSafety.DueExactly | src/smoother-pcr.c:339-364 | on a sorted list, the prefix taken is exactly the items due |
| SmootherSafety.PassTakesExactlyTheDue | src/smoother-pcr.c:339-364 | so a pass takes every due item and no other, in any reachable state |
| SmootherSchedule.ItemsWellTimed | src/smoother-pcr.c:192-216 | in every run, for every item sent, grabbed or queued: with d the ticks from the first stamp of its timebase to its own, on or back, a wrap counted if it was passed by less than five seconds, it is scheduled d / 27 microseconds, and the latency, after the time of that first one; or that would be before the item in front, and it is scheduled behind that one by what its packets take at the interval recorded last |
| SmootherSchedule.SpacedAsStamped | src/smoother-pcr.c:192-216 | so two items of one timebase that are on time are as far apart as their stamps, to a microsecond |
| SmootherSchedule.NeverEarly | src/smoother-pcr.c:339-364 | in every run, nothing is sent before a pass of the consumer at its time or later |
| SmootherIntake.FindSyncPosition | src/ts.c:348-360 | for any buffer, the first offset below 188 with three sync bytes a packet apart, or -1 if there is none |
| SmootherIntake.QueryPcrs | src/ts.c:362-398 | every PCR of an in-sync buffer, in order, or failure under three packets |
| SmootherIntake.FirstTwo | src/smoother-pcr.c:783-807 | the first two PCRs of the PID, and whether there is a third |
| SmootherIntake.OnPidMarks | src/smoother-pcr.c:783-807 | the selected positions are the PID's PCR packets one after another |
| SmootherIntake.Selected | src/smoother-pcr.c:773-807 | what both searches find, in terms of the buffer |
| SmootherIntake.SmootherInput.WriteInterval | src/smoother-pcr.c:859-880 | the inner loop cuts the interval into the specified chunks |
| SmootherIntake.SmootherInput.Trim | src/smoother-pcr.c:93-101 | drops the front, or nothing if asked for too much |
| SmootherIntake.SmootherInput.WriteFrom | src/smoother-pcr.c:809-880 | ticks per packet of the interval, or the last ones after a jump of more than 15 seconds |
| SmootherIntake.SmootherInput.WriteOut | src/smoother-pcr.c:809-914 | one pass of the do/while, which always makes the array smaller |
| SmootherIntake.SmootherInput.Write | src/smoother-pcr.c:759-922 | the do/while ends, and what it has asked of the queue and the timebase is the specified list of calls |
| SmootherIntakeSafety.CutWhole | src/smoother-pcr.c:859-880 | the chunks of an interval put together are the interval |
| SmootherIntakeSafety.NothingDropped | src/smoother-pcr.c:759-922 | over any writes of whole packets, bytes queued and bytes waiting are the input from the first PCR of the PID on; before that, the whole input waits |
| SmootherIntakeSafety.AtMostOnePcrWaits | src/smoother-pcr.c:917-922 | after every write at most one PCR of the PID waits, or fewer than three packets |
| Interpolation.CutAt | src/smoother-pcr.c:859-880 | chunk k holds packets 7k up to 7k + 7 or the end |
| Interpolation.ChunksAreWholePackets | src/smoother-pcr.c:859-880 | over any writes, nothing but one to seven whole packets at a time reaches the queue |
| Interpolation.StampAt | src/libltntstools/ts.h:191-202 | repeated addition on the clock wraps at most once |
| Interpolation.StampsInterpolate | src/smoother-pcr.c:815-880 | for intervals of 0 to 15 seconds: a chunk's stamp, unwrapped, never passes the second PCR and trails exact interpolation by less than as many ticks as there are packets |
| Interpolation.StampUnwrapped | src/smoother-pcr.c:815-880 | a chunk's stamp, unwrapped, is the first PCR and the whole ticks per packet times the packets before it |
| Interpolation.StampsRise | src/smoother-pcr.c:815-880 | of two chunks of an interval the later one's stamp, unwrapped, is never the smaller |
| Stamps.EveryChunkIsOfAnInterval | src/smoother-pcr.c:759-922 | over any writes, every chunk that reaches the queue is a numbered chunk of the packets between one PCR of the PID and the next, in the input as a whole |
| Stamps.EveryStampInterpolates | src/smoother-pcr.c:759-922 | so for every chunk ever queued between PCRs 0 to 15 seconds apart, the stamp, unwrapped, never passes the second PCR and trails exact interpolation by less than as many ticks as there are packets |
| SmootherEndToEnd.GivenIsQueued | src/smoother-pcr.c:864-880 | what the protocol was given is what the intake handed over |
| SmootherEndToEnd.EndToEnd | src/smoother-pcr.c:759-922 | any writes, any interleaving: sent, grabbed, queued, in hand, still to come and waiting bytes are the input from the first PCR on |
| SmootherEndToEnd.IntervalsRecordedForward | src/smoother-pcr.c:815-914 | PCRs that do not step back never make the intake record a negative interval |
| SmootherEndToEnd.QueueInOrder | src/smoother-pcr.c:728-747 | so for such input the busy list is in order of time, whatever the interleaving |
| SmootherEndToEnd.SteppingBackDisorders | src/smoother-pcr.c:728-914 | one write of three PCRs, each 2700 ticks before the last, and a run of the two threads in which the producer makes calls the intake makes of it, after which the busy list is out of order |
| PacketStamps.CallbacksAreChunks | src/smoother-pcr.c:400-753 | in any interleaving, the items the callback gets are the chunks the producer was given, bytes, stamp and ticks per packet, one after another |
| PacketStamps.CallbackPcrsInterpolate | src/smoother-pcr.c:425-453 | from any writes, through any interleaving, to the callback: each packet lies between two PCRs of the input, and if those are 0 to 15 seconds apart, the PCR given for it, unwrapped, does not pass the second and trails exact interpolation by less than as many ticks as there are packets |
| PacketStamps.PcrsOfPackets | src/smoother-pcr.c:433-439 | offset and PID of each PCR given are those of its packet |
| PacketStamps.PastTheWrap | src/smoother-pcr.c:433-439 | the PCR given for a packet is on the clock if and only if counting on from the stamp has not passed its wrap: the array is not wrapped, as the stamps are |
| ScrTimes.ScrDiffExactly | src/libltntstools/ts.h:170-185 | for every clock value and every difference below the wrap: the difference of the two values is the true one if and only if the wrap does not lie in between, or less than five seconds back |
| ScrTimes.EveryStampIsATime | src/smoother-pcr.c:759-922 | for PCRs that sample true times modulo 2^33 * 300, any writes, and any two of them up to fifteen seconds apart, across the wrap too: the stamp of every chunk queued in between stands for a time that does not pass the second one and is less than as many ticks late, as there are packets, against exact interpolation |
| ScrTimes.CallbackPcrsAreTimes | src/smoother-pcr.c:425-453 | the same of the PCR given to the callback for every packet, in any interleaving |
| ScrTimes.TimesRecordedForward | src/smoother-pcr.c:815-914 | PCRs that sample such times never make the intake record a negative interval, whatever wraps lie in between |
| ScrTimes.TimesQueueInOrder | src/smoother-pcr.c:728-747 | so the busy list is in order of time, whatever the interleaving |
| SmootherRebase.PassTiming | src/smoother-pcr.c:815-914 | one pass: over more than fifteen seconds it goes on with the ticks per packet recorded before and asks for a new timebase; over any other interval the ticks are the interval's, rounded down, and it asks if ten seconds have gone by |
| SmootherRebase.RebasedEveryTenSeconds | src/smoother-pcr.c:887-914 | over any writes of input without such jumps: a write that finds an interval asks for a new timebase if and only if ten seconds have gone by since one last did, and then once |
| XorgList.Init | src/xorg-list.h:122-126 | a link alone in its ring |
| XorgList.Inserted | src/xorg-list.h:128-136 | the pointers after an insertion are a ring with the entry in it |
| XorgList.Add | src/xorg-list.h:153-157 | the entry becomes the first element of a well-formed ring |
| XorgList.Append | src/xorg-list.h:174-178 | the entry becomes the last element |
| XorgList.Removed | src/xorg-list.h:180-185 | the pointers after a removal are a ring without the entry |
| XorgList.Del | src/xorg-list.h:201-206 | any link of a ring, its head included, is taken out alone: the others stay a ring and it is a ring of one |
| XorgList.Forward | src/xorg-list.h:307-310 | the forward walk is the ghost sequence |
| XorgList.Backward | src/xorg-list.h:117-119 | the backward walk is its reverse |
| XorgList.MoveOne | src/xorg-list.h:174-206 | out of one list and onto the end of another, both well formed |
| XorgList.MoveChosen | src/xorg-list.h:319-323 | safe iteration visits every original element once and in order although any of them are moved to another list meanwhile; those moved arrive in order, the rest keep theirs |
| Crc32.TableIsShift | src/crc32.c:6-72 | all 256 table entries are their index divided by the polynomial |
| Crc32.TableStepIsShift | src/crc32.c:82-85 | one table step is eight shifts of the register |
| Crc32.BitStepsIsShift | src/crc32.c:82-85 | and so are eight steps of the bit-serial divider of Annex A of ISO/IEC 13818-1 |
| Crc32.TableIsSerial | src/crc32.c:74-104 | for every message the table-driven fold is the bit-serial division by 0x04C11DB7 |
| Crc32.CheckValue | src/crc32.c:74-104 | the remainder of the nine digits is 0x0376E6E7, the check value published for this polynomial and start |
| Crc32.Fold | src/crc32.c:82-85 | the loop computes the bit-serial remainder |
| Crc32.GetCrc32 | src/crc32.c:90-104 | the remainder, refused for an empty buffer |
| Crc32.CheckCrc32 | src/crc32.c:74-88 | succeeds exactly when there are four bytes or more and the remainder is zero |
| Crc32.Shift8Injective | src/crc32.c:82-85 | no two registers become the same |
| Crc32.FoldFour | src/crc32.c:82-85 | four bytes are the register plus those bytes, shifted out |
| Crc32.CheckExactly | src/crc32.c:74-104 | a section checks if and only if its last four bytes are the CRC of the rest, high byte first |
| Crc32.BurstDetected | src/crc32.c:74-88 | any change confined to four consecutive bytes of a valid section makes the check fail |
| MemMem.Search | src/memmem.h:35-62 | the first occurrence, or none, for every haystack and non-empty needle; an empty needle is never found |
| MemMem.SkipMismatch | src/memmem.h:50-55 | two equal first bytes justify the skip of two on a mismatch |
| MemMem.SkipMatch | src/memmem.h:56-60 | two different first bytes justify it on a match |
| NalH264.FindHeaders | src/nal_h264.c:38-84 | lists exactly the start codes that have a byte behind them, in order; looks past the buffer's end if and only if it has more than three bytes and ends in a start code not directly preceded by another |
| NalH264.CodesExactly | src/nal_h264.c:49-76 | the list has every start code in range, once and rising |
| NalH264.TypesAreLowBits | src/nal_h264.c:66-76 | each header has the offset of its start code and the five low bits of the byte behind it |
| NalH264.ListsEveryCode | src/nal_h264.c:38-84 | for a buffer of three bytes or more that does not end in a start code, those are all of them |
| NalH264.SlicesTile | src/nal_h264.c:66-80 | the slices put together are the buffer from the first start code to the end |
| ExpGolomb.NalBitReader.ReadBit | src/nal_bitreader.c:27-38 | the next bit, or -1 at the end |
| ExpGolomb.NalBitReader.ReadBits | src/nal_bitreader.c:40-53 | the next bits modulo 2^32, or all ones if they run out |
| ExpGolomb.NalBitReader.ReadUnsigned | src/nal_bitreader.c:56-73 | read_ue takes what the specified decoder says, and returns its value but after exactly thirty-one zeros |
| ExpGolomb.NalBitReader.ReadSigned | src/nal_bitreader.c:75-81 | read_se likewise |
| ExpGolomb.UeRoundTrip | src/nal_bitreader.c:56-73 | every ue(v) code of up to thirty leading zeros decodes to its value and takes its own bits, whatever follows |
| ExpGolomb.SeRoundTrip | src/nal_bitreader.c:75-81 | and every se(v) code |
| ExpGolomb.ListRoundTrip | src/nal_bitreader.c:56-81 | a concatenation of any such codes, mixed, reads back as the list and takes exactly its bits (section 9.1 of ITU-T H.264) |
| ExpGolomb.TruncatedReads | src/nal_bitreader.c:69-72 | a code cut short after its marker is not reported but reads as 2^z - 2 |
| ExpGolomb.FailsExactlyWhen | src/nal_bitreader.c:56-73 | of all bits but those that begin with exactly thirty-one zeros, where nothing is said of read_ue's value: it is -1 if and only if no marker comes, or more than thirty-one zeros before it |
| ExpGolomb.ErrorsReadZero | src/nal_bitreader.c:75-81 | of all bits but those: read_se turns every error of read_ue into 0, and returns 0 if and only if read_ue failed or read the number 0 |
| Psi.Put | src/pat.c:669-697 | a run of bytes through the running index, stuffing behind it intact |
| Psi.PutCrc | src/pat.c:699-705 | the CRC of everything behind the pointer field, high byte first |
| Psi.PatCreatePacket | src/pat.c:664-708 | the packet is header, section, CRC and stuffing; any other buffer length is refused untouched |
| Psi.PmtCreatePacket | src/pat.c:710-795 | the same for a PMT with its two levels of descriptors, lengths added up by the loops |
| Psi.VersionLost | src/pat.c:688 | PATs that differ only in the version give the same section if and only if both versions or neither are multiples of 32, or the flag hides even that: the code compares with one where it should shift by one |
| Psi.PmtVersionLost | src/pat.c:745 | the same of PMTs |
| Psi.VersionReadsAs | src/pat.c:688 | what a reader decodes from that byte: for a flag of 0 or 1 the version is right if and only if it is a multiple of 32, and the flag if and only if it is set or the version is no such multiple |
| Psi.PmtVersionReadsAs | src/pat.c:745 | the same of PMTs |
| PsiReader.PatReadsBack | src/pat.c:669-705 | a reader that walks the section by its own lengths finds the stream id and the programs, number and PID, in order, as far as their fields go |
| PsiReader.PmtReadsBack | src/pat.c:733-792 | and of a PMT the program number, the PCR PID, the descriptors, and for each stream its type, PID and descriptors |
| SectionExtractor.Extractor.Begin | src/sectionextractor.c:97-126 | start, go on, or give up |
| SectionExtractor.Extractor.WritePacket | src/sectionextractor.c:53-167 | for any packet whose reads stay inside it, in any state: new state, return value and flags are the specified step |
| SectionExtractor.Extractor.Write | src/sectionextractor.c:169-186 | any batch, packets of other PIDs passed over; with none of the PID the caller's CRC flag stays as it was |
| SectionExtractor.Extractor.Query | src/sectionextractor.c:188-200 | answers once for each section, with the section and three bytes more, and refuses a caller with room for less than that |
| SectionExtractor.BuilderPacket | src/pat.c:673-677 | the packet around a section is of the PID and counter asked for, starts a section, and has the section behind a pointer of zero |
| SectionExtractor.FreshHolds | src/sectionextractor.c:97-160 | a fresh extractor given a one-packet section holds it byte for byte and judges its CRC |
| SectionExtractor.SectionChecks | src/pat.c:699-705 | a section with its CRC appended always checks |
| SectionExtractor.PatRoundTrip | src/sectionextractor.c:53-186 | any PAT whose section is at most 183 bytes, built and given to a fresh extractor among any packets of other PIDs, comes out complete, CRC-valid and byte-identical |
| SectionExtractor.PmtRoundTrip | src/sectionextractor.c:53-186 | and any such PMT |
| PsiReader.PatComesBack | src/sectionextractor.c:53-186 | so it does of any one-packet PAT built, sent among packets of other PIDs and extracted |
| PsiReader.PmtComesBack | src/sectionextractor.c:53-186 | and of any such PMT |
| SectionExtractor.LastPacketDecides | src/sectionextractor.c:53-186 | for any packets in any state: the call says the CRC is valid if and only if the last packet of the PID completes a section and that section checks, and leaves the flag alone if there is none |
| SectionExtractor.CopiesReport | src/sectionextractor.c:97-186 | n copies of a one-packet section in one call, among other PIDs, with b = 1 if one is still waiting to be asked for and b = 0 if not: complete if and only if n is above b, valid if and only if n + b is odd, except that n = 0 leaves the flag as it was, and what is held is the section as built |
| SectionExtractor.RepeatReportsInvalid | src/sectionextractor.c:120-126 | so the same table twice is reported complete but not valid |
| SectionCalls.CallsReport | src/sectionextractor.c:53-200 | the same of any call after any list of writes and queries on a fresh extractor, b being counted from the copies in each |
| SectionCalls.EveryOtherCall | src/sectionextractor.c:97-126 | one copy in each call and no query: the section is there after every other call, and every other call reports nothing |
| SectionCalls.QueryMakesRoom | src/sectionextractor.c:188-200 | a query makes the next copy welcome if and only if it has room for three bytes more than the section |
| SectionShapes.ExtractedAnywhere | src/sectionextractor.c:72-167 | a section that begins anywhere in its packet, behind an adaptation field and as many bytes of another section as pointer_field counts, is extracted as it is |
| SectionShapes.LateSectionSkipped | src/sectionextractor.c:92-94 | one that begins in the last eight bytes is passed over |
| SectionShapes.TwoPacketsSuffice | src/sectionextractor.c:97-167 | every section of up to 366 bytes comes out of two packets as it is |
| SectionShapes.TwoPacketsReport | src/sectionextractor.c:169-186 | the return value of a write of both is the length of the section; complete and valid as its CRC says |
| SectionShapes.ThirdPacketLosesAByte | src/sectionextractor.c:112-147 | of one of up to 549 bytes the second packet's last byte is dropped: three packets complete it, and what is held is the section if and only if it is the same one byte later from there on |

## Left out

- Sockets, files, timers, logging, histograms, notifications and the Rust bindings.
- Everything that rests on libdvbpsi, which is not part of this model: stream models and the PAT and PMT readers.
- Wall-clock reads, drift, bitrates and per-second windows: time is an input, floating point is not modelled.
- Allocation failure, freeing, starting and stopping threads, and `smoother_pcr_reset` while items are in flight.
- `ltntstools_ts_packetizer`, the packetizer without a PCR: the plain branch of the one modelled.
- Packetizer.TsPacketizerWithPcr: does not model the 32-bit byte count wrapping for inputs within 175 bytes of 4 GiB.
- Stats.StreamStatistics.Update: does not model TEI, scrambling, PUSI-payload and PCR timing counters, or 64-bit wrap of counters.
- Stats.StreamStatistics.SetContainsPcr: does not start the bitrate calculator, since rates are not modelled.
- KLRingBuffer.RingBuffer.WriteWithState: does not say what the contents are after growing while wrapped, or model a write of a whole allocation or more, or an overflow write of more than is held; the extractor's `rb_empty` keeps it away from all three.
- Reassembly.NeverAborts: a sufficient condition on sizes; the exact one is `Reassembly.AbortsExactlyWhen`.
- Reassembly.OversizeStops: a sufficient condition too, of the same.
- Pipeline.SizesSuffice: likewise; `Pipeline.EndToEnd` has the exact condition.
- PesExtractor.PesExtractor.ParseAndDeliver: says nothing of the callbacks once a unit is handed over whose parse is not followed (see PesParse.Parse), where the C code does call back.
- PesExtractor.PesExtractor.ProcessRing: the same.
- PesExtractor.PesExtractor.StartUnit: the same.
- PesExtractor.PesExtractor.Accept: the same.
- PesExtractor.PesExtractor.WritePacket: the same.
- PesExtractor.PesExtractor.Write: the same; also, packets of the PID whose adaptation field does not fit are excluded, since the C code then reads outside the packet; rings of less than two payloads are too, and the PCR list, STC and raw buffer attached to a PES are not modelled.
- PesParse.Parse: stream ids without the full header, and headers with ESCR, ES_rate, trick mode, CRC or extension set, are recognised but what the parser fills in for them, and what the callback then gets, is not modelled; `HeaderPastEnd` is a header that runs past its buffer.
- Pes.Pack: where each field lies is said by `PesBytes.PackedBytes`; stream ids without the full header, and headers with ESCR, ES_rate, trick mode, CRC or extension set, most of which the code marks as not supported, are excluded by its precondition.
- OrderedPipeline.OrderedByTruePts: times that go back before the wrap they began in are excluded; there the keys are not the times (`OrderedPipeline.KeysAreTimes`), and the order is wrong (`OrderedPipeline.BackBeforeStart`).
- OrderedOutput.OrderedList.Arrive: keys below zero, which the corrected clock never gives, are excluded.
- Clocks: `clock_compare` and the drift functions. The clocks count in unbounded integers, not 64 bits.
- SmootherProtocol.Smoother.TakeFreeItem: blocking mode, which waits until an item is free, is the same step taken only then; the callback is always present.
- SmootherProtocol.Smoother.EnqueueItem: 64-bit wrap of microsecond timestamps is not modelled.
- SmootherSchedule.ItemsWellTimed: chunks stamped below zero, which the intake never makes of PCRs that go forward, are excluded.
- SmootherIntake.QueryPcrs: buffers that are not whole packets in sync are excluded; on those the RTP skip moves 200 bytes, and the last packet can be read past the end.
- SmootherIntake.SmootherInput.Write: one time serves all passes of a call, and the latency measurement is not modelled.
- XorgList: moving an element to the list being walked, and the NULL-terminated lists.
- MemMem.Search: `memcmp` is equality of slices.
- NalH264.FindHeaders: growing the array and looking up names.
- ExpGolomb.FailsExactlyWhen: where `ReadUnsigned` says nothing of the value, it speaks of the specified decoder alone.
- ExpGolomb.ErrorsReadZero: likewise.
- ExpGolomb.NalBitReader.ReadSigned: says nothing of the value where ReadUnsigned does not.
- ExpGolomb.NalBitReader.ReadUnsigned: says nothing of the value after exactly thirty-one leading zeros, where the C code shifts an int by thirty-one; `read_me`, `read_te`, and positions past 2^31 bits.
- Psi.PatCreatePacket: tables that do not fit one packet are excluded, since the C code then writes past it; so it is with PMTs.
- SectionExtractor.Extractor.Write: packets that make the C code read past the packet, and sections longer than its buffer, are excluded; sections over more than three packets are followed step by step but no theorem is about them.
- SectionExtractor.Extractor.Query: sections that end within three bytes of the extractor's buffer are excluded, since the C code then copies past it; a null destination is not modelled.
- Reframer, queue, VBV, TR 101 290 alarms and name tables: easier than the above.
