# Verified model of the GET electronics tools

A GET front end digitises the signals of a time projection chamber: one CoBo board reads up to
four AsAd boards, each AsAd carries four AGET chips, each AGET has 68 channels. This project
models the parts of the software around it that decide what the data mean and what the hardware
is told to do, and proves what those parts promise.

* **From frames to histogram cells.** `AnalyzeFrame` demultiplexes the compressed and the
  uncompressed frame format into 272 traces, `Pulse` turns a trace into a hit (baseline,
  integral, centroid, peak), `ThreePoints` is the parabola through three samples with the real
  algebra behind it, `HitPipeline` copies the hits of an event into a ring item and unpacks them
  again, `LittleEndian` is one byte layout of a hit, `RingMerge` is the program that merges the
  rings of several data sources.
* **From the configuration file to the chips.** `Register1`, `Register2` and `ChannelRegisters`
  pack options into register words, `Logarithm` is the halving search they use, `RegisterServer`
  and `SlowControl` write the words to the chips, `AgetConfiguration` puts packing and writing
  together, `CircularBuffers` divides the CoBo memory. `BitField` and `Euclid` are the arithmetic
  underneath: words are natural numbers, shifts and masks are defined by halving. `Options` holds
  the value that may be missing, `Words` the widths of machine words.

Doubles are reals. Configuration lookups are `Option` values: `None` is the exception the
configuration library throws for a missing node. A register server is faithful if it stores what
is written; otherwise any write may leave anything in the registers it addresses, and nowhere
else. A write on the AGET device goes to every chip enabled in `SC_En`, a read comes from the
chip named by `agetChipSelect`, and a field write is a read of that chip followed by a broadcast.
A ghost log of all writes lets the results speak of their order.

Code that changes state step by step is a class with those fields or a method with that loop; what
it leaves behind is stated by a function or a predicate, and the theorems are lemmas about those.

## Findings

* The claim in the comment at analyzing/AnalyzeFrame.cpp:388 is true: for increasing buckets the
  denominator is negative whenever the interpolation is entered, and so both guards pass
  (`InterpolationFindsVertex`).
* The reported peak can be lower than every interior sample, for two reasons. With no sample above
  the baseline the maximum position stays 0, and the first sample is reported, whatever it is
  (`PeakMayMissHeights`). And where the buckets go back, which the compressed format allows, the
  parabola can open upwards, so that its vertex is a minimum (`PeakMayMissMaximum`).
  `PeakCoversExactly` says for every trace exactly when the peak covers the interior samples; for
  increasing buckets only the first reason is left (`PeakCoversHeights`, `PeakCoversFromSamples`).
* A spike in the first sample can be reported thousands of counts above all others, again because
  the position stays 0 (`SpikeOvershoots`; `OvershootExactly` says exactly when for unit-spaced
  traces). Over gaps in the buckets the parabola itself can rise far: `PeakRise` gives the exact
  height, `InterpolatedOvershoot` bounds it for increasing buckets.
* The decoders agree on exactly the streams that the compressed format can express: at most
  68 * 512 items per AGET (`CompressibleExactly`).
* A threshold survives register 2 exactly when it is 1, 2, 4 or 8 (`LevelExact`).
* `logtwo(0)` runs through its 64 rounds. From round 32 on it shifts a 32-bit number by 32 or more,
  and its seed by 64 or more, both of which C++ leaves undefined. With 0 for both it returns
  2^64 - 127, so that a threshold of 0 is written as level 1 (`LogTwo`); another outcome of the shifts
  gives another level, and none gives 0 back.
* The configuration files offer the veto option as "Undefined", the code compares with "undefined",
  so the choice means no veto (`CapitalUndefinedIsNone`).
* Register 10 has no place for channel 33, although its comment says 0 to 33 (`SharedSlots`).
* The equal split of the memory lies inside the given range exactly when the range does not end
  before it starts; the 32-bit subtraction does not notice (`SplitInsideExactly`).
* Buffer setup is all or nothing on a hardware description that has every register, provided the
  call returns (`FullDescription`). Otherwise it may leave a mixture of old and new regions. It may
  throw after it has written some boards' own regions, because a later board lacks an address and the
  CoBo-level ones are missing too (`MixtureAfterThrow`) or because a write is refused; with no board
  active it divides by zero there, which C++ leaves undefined. And it may return with a mixture: where
  a board register is not described, the split stops at the refused write and the range of a single
  buffer is written instead (`MixtureAfterReturn`). `AllOrNothingExactly` says for every description
  exactly when the setup is all or nothing, `ReturningIsAllOrNothing` for the calls that return.
* Mixed readout modes are noticed only after all chips have been written; the call then fails
  (`Configure`).
* The comment of `interpolatePeak` says the value at the integerised centroid is used when there are
  too few points; the code uses the sample at the maximum, and so does the model.

## Model

| member | source | states |
|---|---|---|
| AnalyzeFrame.WordFields | analyzing/AnalyzeFrame.cpp:157-160 | Each of the four fields of a compressed word is read at its own bits, whatever the other bits are. |
| AnalyzeFrame.ShortFields | analyzing/AnalyzeFrame.cpp:225-226 | Both fields of an uncompressed word are read at their own bits. |
| AnalyzeFrame.LabelMatchesWord | analyzing/AnalyzeFrame.cpp:157-166 | The trace a compressed word goes to carries the word's own AGET and channel if and only if the 7-bit channel field is below 68. |
| AnalyzeFrame.CreateHits.ProcessFrame | analyzing/AnalyzeFrame.cpp:107-111 | The decoder chosen by the frame type leaves the specified hits, or throws and leaves none. |
| AnalyzeFrame.CreateHits.ProcessCompressedFrame | analyzing/AnalyzeFrame.cpp:132-176 | Throws exactly when an item is not four bytes long; otherwise appends one hit for each trace that the words' own fields define. |
| AnalyzeFrame.CreateHits.ProcessUncompressedFrame | analyzing/AnalyzeFrame.cpp:195-252 | Counting channels per AGET gives the traces of the specification, and the hits are those of these traces; `UncompressedItem` says where each item is found. |
| AnalyzeFrame.UncompressedItem | analyzing/AnalyzeFrame.cpp:216-243 | For any items put together from AGET, unused bits and value: the k-th item of AGET g is in channel k % 68 of that AGET, at bucket k / 68, with its own value. |
| AnalyzeFrame.CompressedItem | analyzing/AnalyzeFrame.cpp:143-167 | For any items put together from their fields: the k-th item of a channel is sample k of that channel, with its own bucket and value. |
| AnalyzeFrame.FrameTypes | analyzing/AnalyzeFrame.cpp:107-111 | Type 1 throws if and only if an item is not four bytes long, type 2 never, and any other type has no hits. |
| AnalyzeFrame.CreateHits.AddHits | analyzing/AnalyzeFrame.cpp:170-175 | One hit for each non-empty trace, in channel order. |
| AnalyzeFrame.CreateHits.AddHitFromCompressedData | analyzing/AnalyzeFrame.cpp:268-343 | The loop leaves baseline, integral, centroid and peak of the specification in the hit; the rows of `Pulse` say what these are. |
| AnalyzeFrame.DealSnoc | analyzing/AnalyzeFrame.cpp:231-239 | One more value extends exactly the channel whose turn it is. |
| AnalyzeFrame.UncompressedShape | analyzing/AnalyzeFrame.cpp:225-239 | Bins of a trace count up from 0, values are 12-bit, and trace lengths within an AGET differ by at most one. |
| AnalyzeFrame.UncompressedPeaks | analyzing/AnalyzeFrame.cpp:225-239 | If some interior sample is above the baseline, the peak is at least the highest of them and less than 512 counts above it; with three samples or more it is that close to some interior sample if and only if that holds or the first sample is less than 512 counts above the second. |
| AnalyzeFrame.UncompressedConserves | analyzing/AnalyzeFrame.cpp:216-243 | The traces together hold exactly as many samples as there are items. |
| AnalyzeFrame.CompressedConserves | analyzing/AnalyzeFrame.cpp:143-167 | The same for the compressed decoder when no word leaves the 272 vectors. |
| AnalyzeFrame.InterleavingIrrelevant | analyzing/AnalyzeFrame.cpp:205-251 | Streams with the same values per AGET give the same hits, however the AGETs interleave. |
| AnalyzeFrame.DecodersAgree | analyzing/AnalyzeFrame.cpp:132-252 | Rewriting an uncompressed stream item by item as compressed words and decoding that gives the identical hits. |
| AnalyzeFrame.CompressibleExactly | analyzing/AnalyzeFrame.cpp:157-166 | Some compressed stream has the traces of an uncompressed one if and only if no AGET has more than 68 * 512 items. |
| AnalyzeFrame.HitListExact | analyzing/AnalyzeFrame.cpp:246-251 | Hits come in strictly increasing channel order, each is the hit of its own channel's trace, and no non-empty trace lacks one. |
| Pulse.BaselineIsLower | analyzing/AnalyzeFrame.cpp:289-299 | The baseline is the lower of the second and the next to last sample, of both samples when there are two, the sample when there is one. |
| Pulse.BaselineOfReversed | analyzing/AnalyzeFrame.cpp:289-299 | A trace and its reverse have the same baseline. |
| Pulse.InteriorCounts | analyzing/AnalyzeFrame.cpp:310-328 | With the baseline unchanged, raising one interior sample by v raises the integral by v, and time times integral by its bucket times v. |
| Pulse.EndsDoNotCount | analyzing/AnalyzeFrame.cpp:316-328 | The first and the last sample make no difference to integral and time. |
| Pulse.FlatIsZero | analyzing/AnalyzeFrame.cpp:310-328 | With all interior samples equal, or none, the integral is 0 and the time is not a number. |
| Pulse.CancellingTimes | analyzing/AnalyzeFrame.cpp:328 | Two traces whose interior heights cancel, one with time plus infinity, one with minus infinity. |
| Pulse.SmallPulseHit | analyzing/AnalyzeFrame.cpp:268-343 | All fields of the hit of one five-sample pulse. |
| Pulse.PeakIndexIsFirstMaximum | analyzing/AnalyzeFrame.cpp:313-327 | The running maximum ends at the first highest positive sample, or at 0 if none is positive. |
| Pulse.InterpolationFindsVertex | analyzing/AnalyzeFrame.cpp:362-413 | With increasing buckets both guards always pass; the position lies within half a gap of the middle sample and the peak is the maximum of the one parabola through the three samples. |
| Pulse.PeakBranches | analyzing/AnalyzeFrame.cpp:362-366 | The peak is interpolated if and only if the maximum is neither among the first two nor among the last two samples; otherwise it is the sample there. |
| Pulse.PeakRise | analyzing/AnalyzeFrame.cpp:362-413 | In whatever order the buckets are, the interpolated peak is the highest sample if a guard fails, and otherwise differs from it by lean^2 / (4 bend span), given by the gaps and drops to the two neighbours. |
| Pulse.PeakCoversExactly | analyzing/AnalyzeFrame.cpp:313-413 | In whatever order the buckets are, the peak is at least every interior height if and only if some interior height is positive and the parabola, if it is used, does not lead below its middle sample, or none is positive and the first sample is as high as all of them. |
| Pulse.PeakMayMissMaximum | analyzing/AnalyzeFrame.cpp:362-413 | A trace with buckets that go back whose highest interior height is 10 and whose reported peak is -1.25. |
| Pulse.PeakCoversHeights | analyzing/AnalyzeFrame.cpp:316-329 | For increasing buckets, the peak is at least every interior height if and only if some interior height is positive or the first sample is as high as all of them. |
| Pulse.PeakCoversFromSamples | analyzing/AnalyzeFrame.cpp:295-329 | For increasing buckets, with the baseline the code uses and three samples or more, the same holds if and only if some interior height is positive or the first sample is not below the second. |
| Pulse.PeakMayMissHeights | analyzing/AnalyzeFrame.cpp:313-329 | A trace whose reported peak is below its interior samples. |
| Pulse.InterpolatedOvershoot | analyzing/AnalyzeFrame.cpp:387-406 | For increasing buckets, the exact rise of the peak over the highest sample, with its denominator positive, and a bound on it by one of the two drops and the gaps. |
| Pulse.OvershootBounded | analyzing/AnalyzeFrame.cpp:362-413 | On unit-spaced buckets with some interior sample above the baseline, the peak exceeds the highest interior sample by at most an eighth of the larger neighbour drop, for 12-bit samples by less than 512. |
| Pulse.OvershootExactly | analyzing/AnalyzeFrame.cpp:313-413 | For unit-spaced 12-bit traces of three samples or more, the peak is less than 512 counts above some interior sample if and only if some interior sample is above the baseline or the first sample is no spike of 512 counts over the second. |
| Pulse.SpikeOvershoots | analyzing/AnalyzeFrame.cpp:313-329 | A trace whose reported peak is 4090 while all its interior heights are 0. |
| Pulse.CentroidIsWeightedMean | analyzing/AnalyzeFrame.cpp:310-328 | With non-negative heights, one of them positive, the integral is positive and the centroid lies among the interior buckets. |
| Pulse.HitAffine | analyzing/AnalyzeFrame.cpp:268-343 | Scaling and raising the samples and shifting the buckets scales integral and peak, shifts the centroid and changes nothing else. |
| ThreePoints.VertexIsMaximum | analyzing/AnalyzeFrame.cpp:387-406 | For three points with the middle one highest, the formula's value is the strict maximum of every parabola through them. |
| ThreePoints.GuardPasses | analyzing/AnalyzeFrame.cpp:396-399 | The product of the three Lagrange denominators is non-zero for increasing abscissas. |
| ThreePoints.GuardedRise | analyzing/AnalyzeFrame.cpp:387-409 | For any three abscissas, in any order: how far the formula's value lies from the middle sample, or that it is the middle sample where a guard fails. |
| ThreePoints.RiseSign | analyzing/AnalyzeFrame.cpp:387-409 | The value is not below the middle sample if and only if a guard fails, the vertex is at the middle, or the parabola opens downwards. |
| ThreePoints.RiseBounded | analyzing/AnalyzeFrame.cpp:387-409 | With increasing abscissas and the middle sample highest, the rise is at most what the gaps and the drop on one side allow. |
| ThreePoints.PeakAboveMiddle | analyzing/AnalyzeFrame.cpp:387-406 | The interpolated peak is never below the middle sample. |
| HitPipeline.MakeItem | analyzing/processor.cpp:167-181 | The item has the source id plus the first hit's board and the body that encodes the hits. |
| HitPipeline.FillBody | analyzing/processor.cpp:168-179 | The copy loop leaves the count and the hits in order, within the size that was reserved. |
| HitPipeline.CopyHits | analyzing/processor.cpp:176-179 | The write cursor advances one hit at a time and keeps what is before it. |
| HitPipeline.RingItemProcessor.PutHits | analyzing/processor.cpp:162-182 | An event without hits is dropped, any other adds one item to the sink. |
| HitPipeline.RingItemProcessor.ProcessEvent | analyzing/processor.cpp:150-184 | The sink gains what the specification says the frame's hits call for, and nothing when decoding throws; `Deliver` says what arrives. |
| HitPipeline.BodyRoundTrip | analyzing/processor.cpp:171-179 | Reading a body back gives the hits that were written. |
| HitPipeline.BodyLayout | analyzing/processor.cpp:170-179 | The count lies in the first four bytes, hit i in the 40 bytes from 4 + 40 i on, and nothing else. |
| HitPipeline.Parameters.Unpack | spectclhits/CGetHitUnpacker.cpp:42-70 | Every table cell takes the values of the last accepted hit for it or keeps its own; it fails exactly at the first hit of another CoBo. |
| HitPipeline.LastForIs | spectclhits/CGetHitUnpacker.cpp:57-63 | A hit decides a cell if it has its address and no later one has. |
| HitPipeline.CellOfHits | spectclhits/CGetHitUnpacker.cpp:57-63 | A cell is written if and only if some hit has its address, and then by that hit alone. |
| HitPipeline.HitsSurvive | analyzing/processor.cpp:157-182 | An event of CoBo 0 unpacks without error, and each cell of its board ends with the hit of its own channel's trace if that is non-empty and is not written otherwise. |
| HitPipeline.EventSurvives | analyzing/processor.cpp:150-184 | Any event emits nothing if and only if decoding throws or the frame has no sample; otherwise one item, with time stamp and barrier as they came and the board added to the source id. For CoBo 0 its body has, for each cell of the board, centroid, peak and integral of that channel's own trace, and nothing for any other cell; of any other CoBo the first hit is refused. |
| HitPipeline.CellsAre | analyzing/processor.cpp:171-179 | What a trace is to leave in the tables: its centroid as time, its peak as height, its integral as integral, nothing if it is empty. |
| HitPipeline.Deliver | spectclhits/CGetHitUnpacker.cpp:42-70 | Event processor and unpacker one after the other, for any event of boards 0 to 3: for CoBo 0, each channel of the board with a non-empty trace has that trace's time, height and integral in the tables, each in its own table, and every other cell is as before; for another CoBo, or a frame that throws, no cell changes. |
| LittleEndian.DecodeEncodeHit | analyzing/AnalyzeFrame.h:39-49 | The 40 bytes of a hit structure can be read back. |
| LittleEndian.HitStructure | analyzing/AnalyzeFrame.h:39-49 | Where each member of the structure lies among the 40 bytes, lowest byte first. |
| LittleEndian.LayoutReadable | analyzing/processor.cpp:172-178 | The usual memory layout meets the assumption of the pipeline theorems. |
| RingMerge.MergeLossless | ringmerge/ringMergeMain.cpp:124-132 | In every reachable state, what was forwarded from a ring followed by what waits in it is all that was produced into it, in order. |
| RingMerge.OutputFromRings | ringmerge/ringMergeMain.cpp:124-132 | The output only grows and holds nothing from elsewhere. |
| RingMerge.MergeFair | ringmerge/ringMergeMain.cpp:124-132 | The item at depth d of ring j has been forwarded if and only if the cursor has taken distance-to-j + d * N + 1 steps, whatever producers do. |
| RingMerge.MergeBound | ringmerge/ringMergeMain.cpp:124-132 | Hence within (d + 1) * N cursor steps. |
| RingMerge.RoundsSuffice | ringmerge/ringMergeMain.cpp:124-132 | Hence within d + 1 rounds of the outer loop. |
| RingMerge.Merger.Look | ringmerge/ringMergeMain.cpp:126-130 | A look at a ring is one visit: its first item moves to the output, or nothing happens. |
| RingMerge.Merger.Cycle | ringmerge/ringMergeMain.cpp:125-131 | One round of the inner loop is the run of N visits, with arrivals between any two of them. |
| RingMerge.Merger.Forward | ringmerge/ringMergeMain.cpp:124-132 | Any number of rounds is the run of all their steps. |
| Logarithm.LogTwo | runcontrol/GetController.cpp:96-117 | The halving search finds the exponent within 8 of its 64 rounds for every positive seed; for 0 it runs all 64 and ends at 2^64 - 127. |
| Logarithm.LogTwoIsFloor | runcontrol/GetController.cpp:96-117 | The result r is the one number with 2^r <= seed < 2^(r+1). |
| Register1.RetrieveReg1 | runcontrol/GetController.cpp:2563-2827 | The word is the 21 fields written one after the other, 0 for an inactive chip. |
| Register1.WriteAnalog | runcontrol/GetController.cpp:2572-2676 | Fields 0 to 11. |
| Register1.WriteReadout | runcontrol/GetController.cpp:2679-2731 | Fields 12 to 18. |
| Register1.WriteTrigger | runcontrol/GetController.cpp:2733-2777 | Fields 19 to 27. |
| Register1.WriteLink | runcontrol/GetController.cpp:2779-2824 | Fields 28 to 31, the trigger width bit by bit. |
| Register1.Reg1Tiles | runcontrol/GetController.cpp:2576-2824 | The 21 fields leave no gap and no overlap in bits 0 to 31. |
| Register1.Reg1FieldsRead | runcontrol/GetController.cpp:2563-2827 | Every field reads back, whatever the others are, and the word has 32 bits. |
| Register1.Reg1Unpacks | runcontrol/GetController.cpp:2563-2827 | The word determines all 21 codes. |
| Register1.Reg1Bits | runcontrol/GetController.cpp:2563-2827 | Which bits of the word each of the 20 options decides. |
| Register1.PeakingTimeCode | runcontrol/GetController.cpp:2597-2637 | The code of each of the 16 shaping times is its place in increasing order, that of any other name 8. |
| Register1.TestRangeCodes | runcontrol/GetController.cpp:2578-2595 | The test capacitor is told by the start of its name. |
| Register1.TestCodes | runcontrol/GetController.cpp:2639-2661 | The codes of the test modes and of the integration modes, by name. |
| Register1.PointerCodes | runcontrol/GetController.cpp:2663-2676 | The codes of the SCA pointers, by name. |
| Register1.VicmCodes | runcontrol/GetController.cpp:2718-2730 | The codes of the common-mode voltages, by name. |
| Register1.VetoCodes | runcontrol/GetController.cpp:2744-2759 | The codes of the veto options, by name. |
| Register1.WidthCodes | runcontrol/GetController.cpp:2779-2809 | The codes of the trigger widths, by name. |
| Register1.LinkCodes | runcontrol/GetController.cpp:2811-2824 | The codes of the external links, by name. |
| Register1.ThresholdBits | runcontrol/GetController.cpp:2735-2736 | Of any integer threshold, also a negative one, the three low bits are written. |
| Register1.Reg1RoundTrip | runcontrol/GetController.cpp:2563-2827 | For every configuration the word decodes to what the chip is asked to do (unknown names replaced by defaults); the configuration itself comes back if and only if all its options are legal. |
| Register1.CapitalUndefinedIsNone | runcontrol/GetController.cpp:2746-2757 | The veto choice the configuration files spell "Undefined" means "none". |
| Register2.AdditionsSetFields | runcontrol/GetController.cpp:2842-3018 | Adding shifted codes in ascending order never carries: it is the same as setting the fields. |
| Register2.AdditionsPack | runcontrol/GetController.cpp:2842-3018 | The 19 additions leave the packed word for every configuration. |
| Register2.RetrieveReg2 | runcontrol/GetController.cpp:2832-3052 | Running additions and three field writes give the packed word, 0 for an inactive chip. |
| Register2.SetLevels | runcontrol/GetController.cpp:3020-3048 | The optional range bit and the two levels found by the halving search. |
| Register2.Reg2FieldsRead | runcontrol/GetController.cpp:2832-3052 | Every field reads back, whatever the others are. |
| Register2.NamedFields | runcontrol/GetController.cpp:2842-2964 | Where the three options given by name lie. |
| Register2.LowHalfReads | runcontrol/GetController.cpp:2842-2964 | Which of bits 0 to 15 each option decides. |
| Register2.HighHalfReads | runcontrol/GetController.cpp:2966-3048 | Which of bits 16 to 28 each option decides. |
| Register2.DebugCodes | runcontrol/GetController.cpp:2842-2864 | The codes of the debug selections, by name. |
| Register2.CurrentCodes | runcontrol/GetController.cpp:2936-2964 | The codes of the currents, by name. |
| Register2.Reg2Clear | runcontrol/GetController.cpp:3012-3033 | Bit 23 and all bits above 28 stay 0. |
| Register2.LevelExact | runcontrol/GetController.cpp:3037-3048 | A threshold comes back if and only if it is 1, 2, 4 or 8. |
| Register2.Reg2RoundTrip | runcontrol/GetController.cpp:2832-3052 | For every configuration the word decodes to what the chip is asked to do; the configuration itself comes back if and only if all its options are legal. |
| ChannelRegisters.RetrieveChannels | runcontrol/GetController.cpp:3073-3126 | The loop combines the masks of the active channel nodes, skipping the default node. |
| ChannelRegisters.MaskFillsSlot | runcontrol/GetController.cpp:3132-3324 | Each of the six shift computations puts the code exactly into the channel's slot, and channels without a slot contribute nothing. |
| ChannelRegisters.CodesByName | runcontrol/GetController.cpp:3132-3324 | Which name gives which gain and inhibition code, and that test mode is one bit. |
| ChannelRegisters.SlotsDisjoint | runcontrol/GetController.cpp:3168-3324 | Two channels never share a bit. |
| ChannelRegisters.GainSlotsCover | runcontrol/GetController.cpp:3168-3235 | The gain slots use every bit of registers 6 and 7. |
| ChannelRegisters.SharedSlots | runcontrol/GetController.cpp:3249-3324 | Registers 10 and 11 use the slots of 6 and 7, except that channel 33 has none in register 10. |
| ChannelRegisters.OrAllBit | runcontrol/GetController.cpp:3083-3122 | A bit is set if and only if some active node asks for it. |
| ChannelRegisters.OneNodeMore | runcontrol/GetController.cpp:3086-3122 | An inactive or default node changes no bit of the word, any other adds the bits it asks for. |
| ChannelRegisters.WordsOfNode | runcontrol/GetController.cpp:3106-3113 | Registers 8 and 9 take the node's words, each its own half. |
| ChannelRegisters.OrderIndependent | runcontrol/GetController.cpp:3083-3122 | Node order and repetition make no difference. |
| ChannelRegisters.OrAllBound | runcontrol/GetController.cpp:3073-3126 | The word has 64 bits. |
| ChannelRegisters.SlotBit | runcontrol/GetController.cpp:3073-3126 | A slot's bit is set if and only if an active node of that channel asks for it, whatever other channels ask for. |
| ChannelRegisters.CodeReadsBack | runcontrol/GetController.cpp:3073-3126 | An active channel's code reads back, also when several nodes of the channel agree. |
| ChannelRegisters.InactiveReadsZero | runcontrol/GetController.cpp:3090-3096 | A channel without an active node reads back 0. |
| CircularBuffers.BufferClient.SetAsAdCircularBuffer | runcontrol/EccClient.cpp:1257-1266 | Start, end and read pointer of one board, in this order and up to the first register that is not described. |
| CircularBuffers.BufferClient.CircularBufferInit | runcontrol/EccClient.cpp:419-456 | Four regions of 32 MiB from 0x8000000, one event per interrupt where that is described, both levels at 16 MiB; a refused write of a region or a level ends it there. |
| CircularBuffers.BufferClient.SetCircularBuffers | runcontrol/EccClient.cpp:1271-1306 | Writes the equal split; after a refused write the boards keep what was written and the range of a single buffer is written instead; division by the number of boards fails when there is none. |
| CircularBuffers.BufferClient.WriteSplit | runcontrol/EccClient.cpp:1285-1299 | The running start address gives every board the region the split assigns to it. |
| CircularBuffers.SplitSound | runcontrol/EccClient.cpp:1271-1300 | The regions are consecutive, disjoint and inside the range, active boards get equal sizes and inactive ones nothing, and the unused tail is less than a byte per board or the fourth quarter. |
| CircularBuffers.SplitInsideExactly | runcontrol/EccClient.cpp:1274-1297 | The regions lie inside the range if and only if it does not end before it starts. |
| CircularBuffers.FourBoardsAreInitial | runcontrol/EccClient.cpp:429-439 | With four boards the split of the initial range is the initial layout. |
| CircularBuffers.BufferController.SetCommonParameters | runcontrol/EccClient.cpp:1311-1324 | Interrupt rate, passed over where it is not described, then the two levels, and nothing else. |
| CircularBuffers.BufferController.SetOwnBuffers | runcontrol/GetController.cpp:1981-1988 | For any hardware description: the boards before the first that lacks an address receive their own regions, up to the first refused write, which is there if and only if a register of one of these boards is not described. |
| CircularBuffers.BufferController.SetCircularBuffers | runcontrol/GetController.cpp:1967-1998 | For any hardware description, configuration and mask: how the call ends and the value of every register afterwards; the lemmas below say what that means. |
| CircularBuffers.CommonAfter | runcontrol/GetController.cpp:1969-1978 | For any description: rate and levels arrive each in its own register, the rate 1 where it is missing, all 0 for an inactive CoBo, whatever becomes of the boards; a refused rate is passed over, a refused almost-full level leaves the other as it was. |
| CircularBuffers.NothingWithoutLevels | runcontrol/GetController.cpp:1976-1977 | With a level missing nothing is written. |
| CircularBuffers.SingleBufferAfter | runcontrol/EccClient.cpp:1301-1305 | The registers of a single buffer change if and only if the split is refused, and then receive the range. |
| CircularBuffers.ReturnsExactly | runcontrol/GetController.cpp:1967-1998 | For any description, exactly when a call returns. |
| CircularBuffers.FullDescription | runcontrol/GetController.cpp:1967-1998 | With all registers described, the options alone decide how the call ends. When it returns, the boards hold all their own regions or all the equal split, each read pointer at its start; otherwise the boards before the first that lacks an address hold their own regions and the others are as they were, and none changed if a level was missing. |
| CircularBuffers.AfterOnBoard | runcontrol/GetController.cpp:1967-1998 | For any description, a board ends as the last region that was written for it alone would leave it, and unchanged if the call stopped before it. |
| CircularBuffers.AllKeptExactly | runcontrol/GetController.cpp:1967-1998 | For any description, no board register changes if and only if a level is missing or refused, or every value written to a board was there already. |
| CircularBuffers.AllOrNothingExactly | runcontrol/GetController.cpp:1967-1998 | For any description, all own, all split or all unchanged, if and only if a level is missing or refused, or every board register is described and the options let the call return, or every value written to a board was there already. |
| CircularBuffers.ReturningIsAllOrNothing | runcontrol/EccClient.cpp:1285-1305 | A call that returns is all or nothing if and only if every board register is described or every value written to a board was there already. |
| CircularBuffers.MixtureAfterThrow | runcontrol/GetController.cpp:1981-1995 | A configuration after which board 0 has moved and the others have not, with all registers described. |
| CircularBuffers.MixtureAfterReturn | runcontrol/EccClient.cpp:1285-1305 | A description without read pointers, where the call returns with board 0 moved and the others not. |
| RegisterServer.Ecc.WriteRegister | runcontrol/EccClient.cpp:1810-1817 | A write reaches the enabled chips' register and nothing else. |
| RegisterServer.Ecc.WriteField | runcontrol/EccClient.cpp:2041-2042 | A field write reads the selected chip and broadcasts the changed word. |
| SlowControl.EccClient.AgetRegWSC | runcontrol/EccClient.cpp:1807-1827 | Writes one register of one chip; nothing else changes. |
| SlowControl.EccClient.AgetRegRSC | runcontrol/EccClient.cpp:1859-1881 | Reads one register of one chip. |
| SlowControl.EccClient.SendPulses | runcontrol/EccClient.cpp:1972-1986 | Firmware off, controller reset and released, no chip enabled, pulses for the active chips, a read to set them off: these eight writes in this order; no other field changes. |
| SlowControl.EccClient.SwitchToSlowControl | runcontrol/EccClient.cpp:1968-1993 | The ten writes of the switch, in order: the pulses, then the active chips enabled and the pulses off; no other field changes. |
| SlowControl.EccClient.EnableFPNRead | runcontrol/EccClient.cpp:2036-2043 | Changes register 1 of the enabled chips only. |
| SlowControl.EccClient.SetFullReadOutMode | runcontrol/EccClient.cpp:1470-1478 | The partial readout flag is the negation of the mode. |
| SlowControl.SetBoardMask | runcontrol/GetController.cpp:202-208 | Bits of one board; a missing node ends the loop and leaves the chips after it inactive. |
| SlowControl.ActiveExactly | runcontrol/GetController.cpp:3564-3577 | A chip is active if and only if the nodes of CoBo, board and chip all say so; its activity is unknown if and only if the first node on the way that does not say so is missing. |
| SlowControl.GetController.SetMasks | runcontrol/GetController.cpp:188-219 | The masks' bits are the active boards and chips, and a missing node is tolerated for a board or chip but not for the CoBo. |
| SlowControl.CompleteMasks | runcontrol/GetController.cpp:188-219 | When no node is missing, the chip bits are exactly the active chips. |
| SlowControl.GetController.SetAgetReg | runcontrol/GetController.cpp:2376-2407 | With the check on, it succeeds if and only if the stored word is tolerated. |
| SlowControl.GetController.SetFromConfig | runcontrol/GetController.cpp:2417-2431 | Only the one register changes, and on success it holds the configured word; it is refused if and only if it is checked and stores a word that is not tolerated. |
| SlowControl.GetController.SetTwo | runcontrol/GetController.cpp:2485-2504 | Only the two registers change, the second only if the first passes; it is accepted if and only if both pass; if the chip's earlier registers held their words, they still do, and with these two. |
| SlowControl.GetController.SetFour | runcontrol/GetController.cpp:2513-2520 | The same for four registers: none after the first that does not pass is written. |
| SlowControl.GetController.SetGroup | runcontrol/GetController.cpp:336-341 | On acceptance four more registers hold their words if those before them did; no other chip changes. |
| SlowControl.GetController.SetAgetReg12 | runcontrol/GetController.cpp:2544-2558 | Register 12 and the readout depth it shortens. |
| SlowControl.DepthComplements | runcontrol/GetController.cpp:2547-2557 | Readout depth and offset make up the 512 buckets, 256 with the memory split in two, in 16-bit arithmetic. |
| SlowControl.GetController.SetLast | runcontrol/GetController.cpp:340-342 | On acceptance the last five registers complete a chip whose first eight hold their words. |
| SlowControl.GetController.SetAgetRegs | runcontrol/GetController.cpp:334-342 | On success all thirteen registers hold the configured words, exactly on faithful hardware and up to the tolerance if checked. |
| SlowControl.GetController.OpenSession | runcontrol/GetController.cpp:317-320 | A board is selected and the chips are switched to slow control, with exactly these writes. |
| SlowControl.GetController.CloseSession | runcontrol/GetController.cpp:355-358 | The chips are switched again and the board selected again, with exactly these writes. |
| SlowControl.GetController.ConfigureChip | runcontrol/GetController.cpp:328-348 | Runs only in slow-control mode and stays in it. No other chip changes, and the chip is complete or the call does not return; it is refused only if the chip is checked and a register stores a word that is not tolerated. Of the control fields only selection, readout depth and FPN mode change, the last two as this chip asks. |
| SlowControl.GetController.ConfigureBoard | runcontrol/GetController.cpp:319-354 | The loop over one board's chips extends the configured part by the board, without leaving slow-control mode. |
| SlowControl.GetController.ConfigureBoards | runcontrol/GetController.cpp:308-374 | The double loop: every inactive chip is untouched, every active one configured. Whatever happens, a chip is written only after the chips were switched to slow control in this call and nothing has switched them since. On return the writes are one session for each active board, in order: select, switch, chips, switch, select. |
| SlowControl.GetController.IsFullReadoutModeEnabled | runcontrol/GetController.cpp:2155-2187 | The two counters decide whether all active chips agree. |
| SlowControl.GetController.ApplyModes | runcontrol/GetController.cpp:370-373 | The two masks are set, and the readout mode if the active chips agree on one, with exactly these writes. |
| SlowControl.GetController.Apply | runcontrol/GetController.cpp:303-411 | After the masks are known: on return the chips hold their configuration, the slow-control masks are the active masks and the partial readout flag is every active chip's mode. It fails only if a checked register of an active chip stores a word that is not tolerated, or with all active chips configured and their modes in disagreement; on faithful hardware, or if no chip is checked, only the latter. |
| SlowControl.GetController.Configure | runcontrol/GetController.cpp:298-411 | Inactive chips keep every register, whatever happens; on return every active chip holds its configuration, the two slow-control masks are the active masks and the readout modes agree; on faithful hardware, or if no chip is checked, it returns if and only if no needed option is missing and the modes agree, and with no option missing it fails if and only if the modes disagree, all active chips then being configured; on any hardware, with no option missing, it fails if and only if the modes disagree or a checked register of an active chip stores a word that is not tolerated. A register differs afterwards only if the nodes of its CoBo, board and chip all say active. Chips are written in slow-control mode only, each active board in a session of its own; with some board active, slow control has the link at the end and no pulses are sent. FPN mode and readout depth are those of the last active chip, as they were if there is none. |
| SlowControl.LastActiveIs | runcontrol/GetController.cpp:323-332 | Which chip is the last active one. |
| SlowControl.GetController.SetGlobalRegThreshold | runcontrol/GetController.cpp:983-991 | Reads, changes and writes back register 1 of one chip. |
| SlowControl.GetController.InitializeGlobalThresholds | runcontrol/GetController.cpp:963-979 | The active chips are enabled first. On active chips bits 19 to 21 of register 1 become the value and all other bits stay; no inactive chip and no other register changes. |
| AgetConfiguration.AgetTablesFit | runcontrol/GetController.cpp:2593-2822 | The names the code compares with meet the assumption of the packing theorems: as many as the field has codes, and the default is one of them. |
| AgetConfiguration.Retrieve | runcontrol/GetController.cpp:2417-2431 | Each register name gets the word of its own packing. |
| AgetConfiguration.ChannelRegistersByName | runcontrol/GetController.cpp:3098-3117 | Each channel register takes the packing of its own name. |
| AgetConfiguration.ChipWideWords | runcontrol/GetController.cpp:2417-2431 | Registers 1 and 2 take their packed words, register 12 the offset as an unsigned 64-bit number. |
| AgetConfiguration.ToleranceIsBit21 | runcontrol/GetController.cpp:2393-2401 | What the check of register 2 lets through is equality or a difference in bit 21 alone. |
| AgetConfiguration.ConfigureDelivers | runcontrol/GetController.cpp:334-348 | Each register of an active chip holds the word packed from its own node, after a configuration that returned, on faithful hardware or with the check on. |
| AgetConfiguration.Reg1Delivered | runcontrol/GetController.cpp:2439-2463 | After a successful configuration register 1 of the chip decodes to the configuration, on faithful hardware or with the check on. |
| AgetConfiguration.Reg2Delivered | runcontrol/GetController.cpp:2376-2407 | The same for register 2, where with the check on only one option can be wrong. |
| AgetConfiguration.ReadoutAgrees | runcontrol/GetController.cpp:2143-2150 | The CoBo's partial readout flag and bit 14 of each active chip's register 1 agree, as the comment demands. |
| AgetConfiguration.FpnAgrees | runcontrol/EccClient.cpp:2036-2043 | The CoBo's FPN mode and bit 15 of the last active chip's register 1 agree. |
| AgetConfiguration.CodeDelivered | runcontrol/GetController.cpp:3073-3126 | Each active channel's gain, test or inhibition code reads back from the chip. |

## Left out

- AnalyzeFrame.CreateHits.ProcessCompressedFrame: requires that no word the decoder reads indexes past the 272 vectors, where the code has no defined behaviour; words with channels 68 to 127 that stay inside are modelled. The same holds for AnalyzeFrame.CreateHits.ProcessFrame.
- HitPipeline.Parameters.Unpack: requires a body as long as its count says and hits inside the 4 x 4 x 68 tables, since the code reads and writes past them otherwise; HitsSurvive shows that every event of boards 0 to 3 meets this.
- SlowControl.GetController.Configure: speaks of the modelled steps; those left out can throw as well. They touch no AGET register and of the modelled control fields only `AsadSelect`, which the monitoring reads write (runcontrol/EccClient.cpp:2320), and `ReadDepth`: readout masks, zero suppression, the pulser, monitoring, the inspection manager (runcontrol/GetController.cpp:349-373) and the CoBo settings at runcontrol/GetController.cpp:379-408 and 411-429. One of the latter, the readout depth, overwrites what SetAgetReg12 left. What Configure says about the order of the writes is about the modelled ones.
- RegisterServer.Ecc.WriteField: the server's own code is not part of this model; a field write is taken to read the selected chip and to broadcast the changed word. The control fields are those the clients wrote: what the server itself does with the AGET controller to reach a chip is left out.
- Frame headers, the item sizes the MFM library reports, and the loop over the frames of one event (analyzing/AnalyzeFrame.cpp:60-105 and 417 on).
- Floating-point rounding. A zero integral gives a quotient that is infinite or not a number, as in the code; which 64 bits stand for a double is a parameter.
- `BitFieldHelper` is not part of this model: its `setField` is taken to replace the field by the low bits of the value.
- `CoBoConfigParser` is not part of this model: the masks for registers 8 and 9 are any 64-bit words given with the channel node.
- Register names other than the thirteen, for which `retrievalChan_reg` throws, and channel indices that are not numbers.
- Shifts by the width of the shifted number or more, which C++ leaves undefined, are taken to give 0. `logtwo` reaches two for a seed of 0: of the 64-bit seed, and of the 32-bit `maxBits` from round 32 on. The value for 0 rests on this, LevelExact does not.
- Errors of the connection to the register server: `agetRegWSC` ignores a write that fails and `agetRegRSC` returns 0 for a read that fails. The control registers slow control uses are taken to be described.
- Power-up, calibration and monitoring sequences, the LEDs, the event-builder and ring-buffer libraries, run control over the network, and all display programs.
- The endless outer loop of the merger is modelled as any number of rounds; that an available item is complete is assumed, as the comment at ringmerge/ringMergeMain.cpp:119-123 does.
- State-change, text and event-count items, which processor.cpp passes on unchanged or clones.
- `firstActiveChip`, which always returns 0 because its loop declares a second `id`.
