# Verified models of emulator core parts

Models, in Dafny 4.11, of those parts of the emulator whose correctness is hard to see from the
code, with proofs. Where the source updates structures in place the model is a class or an array
method proved against a function; the laws are proved of the function.

| part | files |
|---|---|
| blitter | `Bits` (words bit by bit), `BlitterCore` (the step as a function), `BlitterSlices` (cutting off and resuming), `BlitterSpec` and `BlitterRefinement` (a plain per-word specification and the proof that a blit meets it), `BlitterBits` (what that comes to for every bit), `BlitterDevice` (the object) |
| cycle interrupts | `CycIntQueue` (a sorted queue and its timing laws), `CycIntList` (the links), `CycInt` (the object) |
| MC6850 ACIA | `AciaCore`, `AciaLaws` (interrupt and overrun), `AciaLink` (one chip sending to another), `AciaWire` (the levels of the line), `AciaDevice` (the object) |
| planar to chunky and zoom | `ConvGenChunky`, `ConvGen` |
| DMA sound, clock conversion | `DmaFrame`, `DmaSnd`, `Rates` |
| AVI recording | `AviBytes`, `AviLayout`, `AviFile` (bytes of the file and what a reader finds), `AviIndex`, `Avi` (the recorder) |
| command lines | `ChangeCmd` (quoting and meaning), `ChangeApply` (the two passes in the buffer) |
| settings files | `CfgText`, `CfgFile`, `CfgLaws`, `CfgStable`, `CfgOpts` (the line loops) |
| path names | `FilePath` (meaning), `FileName` (the buffer) |
| floppy images | `Floppy`, `BlankImage` |
| shared | `Arith`, `Text` |

`dafny verify dfyconfig.toml` checks everything.

## Main results

* A blit cut into slices of 64 or 63 bus accesses, anywhere, ends as one hog run, and a blit
  without feedback writes exactly the specified words: every bit is what the truth table of the
  logic operation, the halftone pattern, the skewed source and the end mask say. Slices finish it if and only if they grant
  the closed-form number of accesses.
* The linked list threaded through the handler array is at all times the sorted queue of active
  handlers; a timer that re-arms itself keeps its beat if and only if it is late by at most 2^31
  internal cycles and re-arms at the time of its call, and otherwise drifts by an exact amount.
* What one ACIA sends, another receives in order, once each, in the exact frame time, and the levels
  on the line are those of the format that the control byte asks for. Even parity
  flags every frame with PE and 7-bit bytes arrive shifted left by one: both are what the code
  does, and are stated as such.
* The masked-swap network is a bit transpose for all inputs, and an integer zoom is exact
  magnification including copied rows and rows past the end of memory. Those rows are filled over
  a whole pitch, and it is stated exactly when a centred picture is filled past the surface by them.
* DMA sound plays the bytes of one whole frame after the other in address order, whatever is
  written to its registers meanwhile, stereo pairs stay aligned through any
  mode changes, and resampling and clock conversion never accumulate rounding.
* A recording of up to 256 movi lists whose video and audio frames come in turn is a file whose chunks tile
  it and whose indexes lead to every frame, across all rollovers, and whose header has the right
  numbers of frames, samples and index entries. No size or offset field wraps:
  this is proved, not assumed, for all frames below 2^28 bytes, where the size computation of the
  source overflows. Frames of odd length break the tiling, and nothing else.
* Quoting round trips if and only if no path is empty, none but the last ends in a backslash, and
  none holds white space other than spaces.
* Updating a settings section and loading it gives all values back if and only if the update keeps
  every key. It loses one when duplicate lines make the number of rewritten lines equal to the
  number of keys (src/cfgopts.c:394).
* A path made absolute has no "." or ".." component and stays what it is when made absolute again.
* Sector addresses are disjoint and inside the image if and only if a track has at most 127
  sectors, or there is no second track on any side: the bytes per track are a 16-bit number
  (src/floppy.c:932).
* Where a law of the code has exceptions, a lemma gives an input: `ConvGen.BlankOutside`,
  `CycIntQueue.Drifts`, `AciaLaws.IrqLost`, `ChangeCmd.RoundTripFails`, `CfgLaws.KeyLost`,
  `Floppy.NoSectors`, `BlankImage.GeometryLost`, `AviLayout.FirstOdd` (for any odd frame).

Where the code differs from what its comments say, the model follows the code: the parity test of
the ACIA receiver (src/acia.c:1090), the frame size of 7-bit words (src/acia.c:1059), the
comparison of token counts (src/cfgopts.c:394), and the list size of the AVI header, which leaves
the OpenDML list beside the header list instead of inside (src/avi_record.c:1126).

## Model

| member | source | states |
|---|---|---|
| `BlitterDevice.Blitter.ReadWord` | src/blitter.c:430-442 | a bus read gives the word at the address (0 outside memory, per the bus error value), leaves it on the bus and counts one access |
| `BlitterDevice.Blitter.WriteWord` | src/blitter.c:444-453 | a bus write changes exactly one word of memory and counts one access |
| `BlitterDevice.Blitter.ShiftAndFetch` | src/blitter.c:489-510 | the shift buffer takes the next source word, or the word still on the bus under NFSR, on the side the sign of the source increment asks for |
| `BlitterDevice.Blitter.ProcessWord` | src/blitter.c:682-744 | one word: FXSR, source and destination reads in this order, each followed by the budget test, then the masked write |
| `BlitterDevice.Blitter.FlushWordState` | src/blitter.c:760-768 | the pending word state is dropped; the FXSR flag only on request |
| `BlitterDevice.Blitter.AdvanceCounters` | src/blitter.c:820-856 | counters and addresses after a word, at the end of a line and inside one |
| `BlitterDevice.Blitter.DoStep` | src/blitter.c:777-857 | one step of the machine equals the resumable step function, cut off or not |
| `BlitterDevice.Blitter.Transfer` | src/blitter.c:871-946 | the do-while loop runs words until the blit is done or the bus budget is spent |
| `BlitterDevice.Blitter.Start` | src/blitter.c:871-946 | a start or restart: bus counter 0 or 1, the loop, then control byte and phase |
| `BlitterDevice.Blitter.WriteXCount` | src/blitter.c:1338-1350 | a count of 0 stands for 65536, and is kept for the next lines |
| `BlitterDevice.Blitter.WriteYCount` | src/blitter.c:1356-1367 | a count of 0 stands for 65536 |
| `BlitterDevice.Blitter.WriteControl` | src/blitter.c:1393-1483 | what a control write leaves behind; a fresh start makes the start state of the blit theorems, a restart keeps the word state |
| `BlitterSlices.StepResumes` | src/blitter.c:682-744 | a step that was cut off and is stepped again to its end equals the step that was never cut off |
| `BlitterSlices.MainLoopResumes` | src/blitter.c:777-857 | running the rest of the blit after a cut-off slice ends as running the whole blit at once |
| `BlitterSlices.StepCount` | src/blitter.c:473-480 | a non-hog step never passes 64 accesses, is cut off exactly at 64, and the accesses made plus those still to come stay constant |
| `BlitterSlices.StartCost` | src/blitter.c:883-908 | a slice makes exactly 64 accesses (63 with the bus count error) unless it finishes the blit |
| `BlitterSlices.SlicesFinishExactly` | src/blitter.c:871-946 | a list of slices finishes the blit if and only if the accesses they grant reach the cost of the blit |
| `BlitterSlices.SlicingIsInvisible` | src/blitter.c:473-480 | however the accesses are sliced, the result equals one hog run: memory, registers, buffer, bus word, flags, halftone line and control byte |
| `BlitterRefinement.ShiftInIsPack` | src/blitter.c:489-510 | one shift-and-fetch, seen through the sign of the increment, makes the pair (previous word, new word) |
| `BlitterRefinement.UnusedOperands` | src/blitter.c:533-677 | where no source or destination read is needed, the stale value has no influence on the word written |
| `BlitterSpec.ApartIsEnough` | src/blitter.c:777-857 | a blit that moves up through memory, with its source all below or all above its destination, has no feedback |
| `BlitterRefinement.BlitRegisters` | src/blitter.c:820-856 | closed form of source and destination address, counters and halftone line after a whole blit |
| `BlitterRefinement.BlitMemory` | src/blitter.c:682-857 | every destination word is the end-mask merge of its old value with the logic operation on the skewed two-word window of the original source; all other memory is untouched |
| `BlitterRefinement.BlitCost` | src/blitter.c:430-469 | closed form of the number of bus accesses of a blit |
| `BlitterBits.LopBit` | src/blitter.c:560-677 | the code of each of the 16 logic operations is its truth table, for every bit of every operand |
| `BlitterBits.NeededIff` | src/blitter.c:651-672 | the table says an operand is needed exactly when the operation depends on it |
| `BlitterBits.SourceReadIff` | src/blitter.c:651-672 | a blit reads its source exactly when the words it writes can depend on it |
| `BlitterBits.DestinationReadIff` | src/blitter.c:651-672 | it reads a destination word exactly when the logic operation and the mask make the result depend on it |
| `BlitterBits.MergeBit` | src/blitter.c:682-744 | a bit inside the end mask is new, one outside is the old one |
| `BlitterBits.WindowBit` | src/blitter.c:511-514 | bit k of the source word is bit k + skew of the previous and the current word side by side |
| `BlitterBits.ResultBit` | src/blitter.c:521-677 | every bit of a word of the specification, from truth table, halftone pattern, window and mask |
| `BlitterBits.BlitBits` | src/blitter.c:682-857 | the same of memory once a blit is over, however it was sliced |
| `BlitterRefinement.SlicedBlit` | src/blitter.c:871-946 | both together for non-hog blits: finished exactly when the closed-form cost is granted, and then with the specified memory and registers |
| `CycInt.Scheduler.constructor` | src/cycInt.c:149-174 | after the reset the list is the sentinel alone and nothing is pending |
| `CycInt.Scheduler.FindPosition` | src/cycInt.c:265-286 | the search stops at the first entry that is not due earlier; the assertion against running off the list cannot fail |
| `CycInt.Scheduler.InsertInt` | src/cycInt.c:265-315 | linking in keeps prev, next, active flags and order, and is insertion into the sorted queue |
| `CycInt.Scheduler.Acknowledge` | src/cycInt.c:323-337 | the first pending interrupt is removed and the next one becomes the active one |
| `CycInt.Scheduler.AddAbsolute` | src/cycInt.c:347-363 | replaces any pending entry of the handler by one counted from the delayed due time |
| `CycInt.Scheduler.AddRelativeWithOffset` | src/cycInt.c:385-402 | the same counted from now, with an offset in internal cycles |
| `CycInt.Scheduler.Modify` | src/cycInt.c:412-426 | moves the handler to its new due time in the queue |
| `CycInt.Scheduler.RemovePending` | src/cycInt.c:434-476 | removes the handler from wherever it is, first, middle or not pending at all |
| `CycInt.Scheduler.CallActiveHandler` | src/cycInt.c:531-552 | the lateness handed on is the 32-bit difference of due time and now |
| `CycInt.Scheduler.ServiceAbsolute` | src/cycInt.c:347-363 | calling the first handler at one time, which acknowledges and at another time adds itself again from its due time, is one service of the queue |
| `CycInt.Scheduler.ServiceAcia` | src/acia.c:472-515 | the ACIA timer, which adds itself with the negated lateness as offset, does the same service |
| `CycInt.Scheduler.FindCyclesRemaining` | src/cycInt.c:486-497 | the cycles left until a handler is due, in the unit asked for |
| `CycInt.Scheduler.MfpTime` | src/includes/cycInt.h:56-58 | an MFP period in internal cycles is its time in 256ths of a CPU cycle, rounded down |
| `CycInt.Scheduler.CpuTimeBack` | src/includes/cycInt.h:56-64 | CPU cycles and 8 MHz cycles, converted there and back, are themselves |
| `CycInt.Scheduler.MfpTimeBack` | src/includes/cycInt.h:56-64 | MFP cycles come back exactly when their time is a whole number of internal cycles, and else one short |
| `CycIntList.LinkInKeepsList` | src/cycInt.c:265-315 | the four link writes turn a well-formed list into a well-formed list whose contents are the sorted insertion |
| `CycIntList.LinkOutKeepsList` | src/cycInt.c:434-476 | the two link writes take exactly one entry out of a well-formed list |
| `CycIntList.QueueLaws` | src/cycInt.c:149-174 | what the links visit is sorted, without repetition, without the sentinel, and exactly the active handlers |
| `CycIntQueue.InsertAt` | src/cycInt.c:284-315 | insertion is at the one place that keeps the order and precedes its ties |
| `CycIntQueue.InsertKeeps` | src/cycInt.c:265-315 | insertion keeps the queue sorted and adds exactly its entry |
| `CycIntQueue.RearmIs` | src/cycInt.c:531-552 | the next due time is the last one plus the period, plus the time between call and re-arm, plus what the 32-bit count does not tell of the lateness, which is nothing up to 2^31 |
| `CycIntQueue.NoDriftIff` | src/cycles.c:315-321 | a handler that re-arms itself keeps its beat exactly when it is late by at most 2^31 internal cycles and the clock is the same at its call and at its re-arm |
| `CycIntQueue.Drifts` | src/cycInt.c:531-552 | two handlers that lose their beat: one too late, one re-armed a cycle after its call |
| `CycIntQueue.TimersKeepTheBeat` | src/cycInt.c:347-363 | over any run of services the due time of every timer is its first due time plus its number of services times its period, plus exactly the time that went by between its calls and re-arms |
| `CycIntQueue.NothingSlips` | src/cycles.c:315-321 | with each re-arm at the time of its call that time is zero |
| `AciaDevice.Chip.UpdateIrq` | src/acia.c:715-748 | status bit and line are updated together, the line only when the bit moves |
| `AciaDevice.Chip.MasterReset` | src/acia.c:669-705 | state after a master reset, with the RTS line of the first one |
| `AciaDevice.Chip.WriteCr` | src/acia.c:785-842 | a control write: reset or divider, transmitter control, interrupt update |
| `AciaDevice.Chip.ReadSr` | src/acia.c:757-776 | a status read takes over CTS and arms the overrun clear; TDRE is masked for the reader while CTS is high |
| `AciaDevice.Chip.ReadRdr` | src/acia.c:856-881 | a data read clears RDRF and PE, and OVRN after a status read, and reports a pending overrun |
| `AciaDevice.Chip.WriteTdr` | src/acia.c:893-902 | a data write fills the data register and lowers TDRE |
| `AciaDevice.Chip.ClockTx` | src/acia.c:954-1027 | one bit time of the transmitter |
| `AciaDevice.Chip.ClockRx` | src/acia.c:1038-1144 | one bit time of the receiver, with the parity test as the code has it |
| `AciaLaws.IrqAlwaysTold` | src/acia.c:715-748 | after one master reset and with CTS low, in every reachable state status bit 7 is the interrupt predicate and the line its negation |
| `AciaLaws.IrqLostIff` | src/acia.c:757-776 | with CTS moving, the law breaks exactly at a status read that sees CTS change while the transmitter alone decides |
| `AciaLaws.IrqLost` | src/acia.c:757-776 | a chip and a status read that break it: bit 7 stays up when CTS takes the cause away |
| `AciaLaws.OverrunKeepsRdr` | src/acia.c:1103-1142 | a good frame that finds RDR full leaves RDR as it is and is remembered |
| `AciaLaws.RdrChangesOnlyAtFrameEnd` | src/acia.c:1103-1142 | RDR changes only at a last good stop bit with RDRF clear, or at a framing error |
| `AciaLaws.OverrunReported` | src/acia.c:856-881 | a remembered overrun is reported at the next data read, whatever happens in between |
| `AciaLaws.OvrnClearedIff` | src/acia.c:856-881 | OVRN goes down only by a reset or by a data read that follows a status read and finds no new overrun |
| `AciaLaws.OvrnStays` | src/acia.c:856-881 | over any run without a status read or reset OVRN stays up |
| `AciaLink.ByteArrives` | src/acia.c:1059-1068 | the bits of a byte, shifted out and in, make the byte again with 8 data bits, and twice its low seven bits with 7 |
| `AciaLink.BitStep` | src/acia.c:954-1144 | transmitter and receiver stay in step through every bit of a frame |
| `AciaLink.StreamArrives` | src/acia.c:893-1144 | in any order of writes, ticks, reads and polls of either status register the bytes read are the bytes written, in order and once each; at most three are on their way, and none when the line is quiet |
| `AciaLink.StatusTellsLegal` | src/acia.c:757-776 | the status registers tell a program when it may write and read: TDRE, masked while CTS is high, and RDRF |
| `AciaLink.EightBitsArriveUnchanged` | src/acia.c:913-942 | with word selects 4 to 7 every byte arrives unchanged |
| `AciaLink.NoErrors` | src/acia.c:1038-1144 | no framing, parity or overrun error ever shows without even parity |
| `AciaLink.ParityErrorIffEven` | src/acia.c:1090-1095 | the parity bit of a frame raises PE exactly with even parity, in every frame |
| `AciaCore.DecodeBack` | src/acia.c:785-842 | the fields of the control byte hold all its bits, in their places |
| `AciaWire.FrameOnWire` | src/acia.c:954-1027 | for every control byte and data byte the levels on the line, tick by tick: start bit, data bits, parity bit, stop bits, and then high |
| `AciaWire.FrameTicks` | src/acia.c:198-207 | a frame takes ten ticks for word selects 2, 3 and 5, else eleven |
| `AciaWire.ParityCounts` | src/acia.c:198-207 | the parity bit makes the number of ones even, or odd, as the word select asks for |
| `AciaLink.FramesTakeTheirTime` | src/acia.c:954-1027 | every frame takes exactly 1 + data + parity + stop ticks; all other ticks are idle |
| `ConvGenChunky.Network` | src/conv_gen.c:118-205 | the mask-and-shift network puts one bit of every plane into each of the 16 bytes, for all inputs |
| `ConvGenChunky.BitplaneToChunky` | src/conv_gen.c:118-205 | for 1, 2, 4 or 8 planes pixel i has the weight 2^p for bit 15 - i of plane p |
| `ConvGen.Screen.Idx2Pal` | src/conv_gen.c:102-111 | the palette lookup with TT sample hold |
| `ConvGen.HoldShowsLastNonZero` | src/conv_gen.c:102-111 | under sample hold a pixel shows the last non-zero index so far on its line |
| `ConvGen.HoldShowsZeroAtFirst` | src/conv_gen.c:102-111 | before any non-zero index it shows index 0 |
| `ConvGen.Screen.ConvertLine` | src/conv_gen.c:208-242 | a line of any width and scroll offset gives the pixels from the offset on, through palette and hold, and nothing else is written |
| `ConvGen.BuildZoomTable` | src/conv_gen.c:636-674 | the table entry is the proportional position |
| `ConvGen.IntegerTable` | src/conv_gen.c:636-674 | with an integer factor the proportional position is division by the factor |
| `ConvGen.Screen.CopyRow` | src/conv_gen.c:481-485 | copying the previous row gives the row a fresh rendering would give |
| `ConvGen.Screen.BlankRow` | src/conv_gen.c:486-489 | a row past the end of memory is filled with colour 0 |
| `ConvGen.Screen.ConvertZoomed` | src/conv_gen.c:448-525 | every pixel of every output row, borders included, is the source pixel at (row div coefy, column div coefx), or colour 0 past the end of memory, wherever the picture lies on the surface; asks only for room for the picture and for the fills of rows past the end of memory |
| `ConvGen.Screen.PixelFromMemory` | src/conv_gen.c:476-510 | a pixel of the finished picture in terms of the bytes of memory: the line `nextline` words per row further, the group of its column, a byte of each plane |
| `ConvGen.IdxFromMemory` | src/conv_gen.c:477-495 | the palette index of a column of a line in the same terms |
| `ConvGen.LineWindow` | src/conv_gen.c:476-487 | a line starts where the window of the line before ends, which is what the end-of-memory test looks at, and its groups end by the end of its own |
| `ConvGen.LinesApart` | src/conv_gen.c:476-487 | lines share no byte |
| `ConvGen.GroupsCover` | src/conv_gen.c:222-240 | as few groups as cover the line |
| `ConvGen.Screen.ConvertWithZoom` | src/conv_gen.c:607-699 | the frame in the middle of the screen at the largest integer factors; frames of fewer than 16 columns are not shown |
| `ConvGen.BlanksFitIff` | src/conv_gen.c:486-489 | given room for the picture, the fills of rows past the end of memory stay inside the surface exactly when the last line is in memory, or is not the last row, or a whole pitch has room there |
| `ConvGen.PlacedBlanksFitIff` | src/conv_gen.c:639-647 | for a picture in the middle of the screen: exactly unless the last line is past the end of memory at factor 1 on the full height without a lower border, with two columns or more to spare |
| `ConvGen.BlankOutside` | src/conv_gen.c:486-489 | such a picture: 16 columns of 20, one line past the end of memory |
| `DmaFrame.WordsSplit` | src/dmaSnd.c:342-368 | fetching in portions fetches the same words |
| `DmaFrame.StartPlays` | src/dmaSnd.c:461-479 | a start begins the frame in the registers at its first word, unless that is empty and is not to loop |
| `DmaFrame.EndMet` | src/dmaSnd.c:342-368 | the counter meets the end after the last word and not before, also for a frame that ends where it starts or before, which goes round all 32 bits |
| `DmaFrame.OneShot` | src/dmaSnd.c:497-515 | a frame that does not loop is fetched from start to end, each word once, and then the DMA is off |
| `DmaFrame.Looping` | src/dmaSnd.c:497-515 | a looping frame is fetched over and over, word by word, while its registers stay as they are |
| `DmaFrame.FramesPlayed` | src/dmaSnd.c:461-515 | whatever is written to the registers and the loop bit meanwhile, the words fetched are those of the frame begun and then of one whole frame after the other, each with the bounds in the registers when the one before it ended; the DMA stops only at the end of a frame |
| `DmaSnd.OneShotBytes` | src/dmaSnd.c:342-368 | the byte stream of a single frame is its bytes in address order |
| `DmaSnd.LoopedBytes` | src/dmaSnd.c:342-368 | the byte stream of a looping frame is its bytes in address order, modulo its length |
| `DmaSnd.FrameStream` | src/dmaSnd.c:342-368 | the byte stream from a start on is that of a list of whole frames, with register writes at any time |
| `DmaSnd.Sound.constructor` | src/dmaSnd.c:240-276 | the reset state is idle with an empty FIFO |
| `DmaSnd.Sound.FetchWord` | src/dmaSnd.c:342-368 | one word goes into the ring as two bytes, and the frame counter moves on, wraps to the next frame or stops |
| `DmaSnd.Sound.Refill` | src/dmaSnd.c:342-368 | the FIFO is filled as long as the DMA plays, with exactly the next words of the frame; XSINT is high exactly while playing |
| `DmaSnd.Sound.PullByte` | src/dmaSnd.c:387-409 | bytes leave in the order they were fetched; silence only when the DMA is off and the FIFO empty |
| `DmaSnd.Sound.PullPair` | src/dmaSnd.c:650-674 | a stereo sample is the byte of an even address and the next one, whatever mode changes came before |
| `DmaSnd.Sound.SetStereo` | src/dmaSnd.c:419-438 | an odd position moves on to the next word boundary of the stream |
| `DmaSnd.Sound.WriteMode` | src/dmaSnd.c:1001-1026 | the bits of a real STE are kept, and a change from mono to stereo realigns the stream; others leave it |
| `DmaSnd.Sound.WriteAddresses` | src/dmaSnd.c:461-468 | start and end registers have no lowest bit |
| `DmaSnd.Sound.WriteControl` | src/dmaSnd.c:787-818 | a start takes the addresses over and restarts the counter, an empty frame that does not loop stops at once, a stop leaves the FIFO |
| `DmaSnd.RatesHalve` | src/dmaSnd.c:215-218 | the two mode bits select 50066 Hz or a half, a quarter or an eighth of it, to within one |
| `DmaSnd.StepsOfMode` | src/dmaSnd.c:587-590 | at an output of 50066 Hz n output samples take n, n / 2, about n / 4 and about n / 8 input samples, with bounds |
| `DmaSnd.Sound.OneSample` | src/dmaSnd.c:592-676 | an output sample is the input sample reached; then the counter moves on |
| `DmaSnd.Sound.Generate` | src/dmaSnd.c:538-680 | over a whole call output sample i is the input sample the 32.32 counter has reached after i steps, and exactly as many samples leave the stream as the counter advances |
| `Rates.StepsAddUp` | src/dmaSnd.c:619-629 | steps and fraction of the 32.32 counter account for every output sample |
| `Rates.ResamplerKeepsPace` | src/dmaSnd.c:587-674 | after n output samples the input has advanced floor(n * ratio / 2^32) samples, never ahead of the true rate and behind by less than 1 + n / 2^32 |
| `Rates.CycleCounter.ConvertCycles` | src/clocks_timings.c:563-577 | one conversion in 64-bit arithmetic, with its remainder kept |
| `Rates.ConversionsAddUp` | src/clocks_timings.c:563-577 | over any list of conversions the outputs sum to one exact division of the summed inputs, and the kept remainder is its remainder |
| `AviBytes.FieldOfLe` | src/avi_record.c:471-514 | a number stored low byte first reads back modulo its width |
| `AviIndex.TrackedSnoc` | src/avi_record.c:583-618 | noting the next frame keeps every slot of the index at the place of its frame, and the 32-bit offset never wraps |
| `AviIndex.TrackedMovi` | src/avi_record.c:583-618 | a movi list closed with this index fits its size fields and its indexes are right |
| `Avi.Recorder.constructor` | src/avi_record.c:1280-1374 | the file of a fresh recording: header, INFO, open movi list |
| `Avi.Recorder.Write` | src/avi_record.c:630-705 | a write at the file position overwrites or extends the file |
| `Avi.Recorder.FillSize` | src/avi_record.c:752-823 | back-patching changes the size field of one chunk and nothing else |
| `Avi.Recorder.GrowIfNeeded` | src/avi_record.c:531-558 | there is room for one more row and no row changes |
| `Avi.Recorder.StoreFrame` | src/avi_record.c:583-606 | the index still follows the frames once the new one is stored |
| `Avi.Recorder.FrameIndexAdd` | src/avi_record.c:583-618 | keeps the whole recording valid, with a rollover to a new RIFF chunk when the last pair passes 1 GB |
| `Avi.Recorder.WriteIndex` | src/avi_record.c:630-705 | the index chunk written, and its place, size and duration for the super index |
| `Avi.Recorder.WriteAllIndexes` | src/avi_record.c:714-742 | both indexes follow the frames and enter the super indexes |
| `Avi.Recorder.CloseMovi` | src/avi_record.c:752-823 | the closed file is exactly the layout of its movi lists with all sizes filled in, and the header knows their indexes |
| `Avi.Recorder.CreateNewMovi` | src/avi_record.c:834-875 | a new RIFF chunk with an open movi list follows the closed one |
| `Avi.Recorder.WritePicture` | src/avi_record.c:887-935 | a picture is one chunk of its size: for each pixel the bytes of the nearest pixel of the cropped surface |
| `Avi.PixelOfPicture` | src/includes/pixel_convert.h:77-92 | where each pixel is in the chunk, and that it is blue, green, red |
| `Avi.PictureUnscaled` | src/avi_record.c:907-927 | a surface of the size of the picture is recorded pixel by pixel, bottom line first |
| `Avi.RowsInsideIff` | src/avi_record.c:915-916 | all rows read are rows of the surface exactly when half the height of the picture is less than the rows there are |
| `Avi.Recorder.RecordVideo` | src/avi_record.c:986-1022 | the recording grows by exactly this picture and stays valid |
| `Avi.Recorder.WriteSamples` | src/avi_record.c:1026-1061 | samples leave the ring in order, 16 bits each, low byte first |
| `Avi.PcmSample` | src/avi_record.c:1026-1061 | where each sample is in a chunk, left before right, as a signed 16-bit number |
| `Avi.Recorder.RecordAudio` | src/avi_record.c:1065-1093 | the recording grows by exactly these samples and stays valid |
| `Avi.Recorder.StopRecording` | src/avi_record.c:1378-1411 | the file holds all recorded frames in order; if they came in turn it satisfies the two theorems below |
| `AviLayout.IndexFindsFrames` | src/avi_record.c:630-705 | base offset plus entry offset is the place right after the chunk header of its frame, with the right length and data; the index tells its kind, its stream and its number of entries |
| `AviLayout.FramesTile` | src/avi_record.c:887-935 | frame chunks of even length follow each other without a gap |
| `AviLayout.ChunkFollowsIff` | src/avi_record.c:887-935 | a reader gets from a frame to what follows it exactly when the length is even |
| `AviLayout.FirstOdd` | src/avi_record.c:887-935 | what an odd frame breaks: the reader gets to the first odd one, and then one byte too far |
| `AviLayout.MoviTiles` | src/avi_record.c:752-823 | a movi list whose frames have even lengths is one chunk, exactly filled by its frames and two indexes |
| `AviFile.FrameFound` | src/avi_record.c:714-742 | from the super index in the header a reader gets to every indexed frame of every movi list, across all rollovers, with the data recorded; the super index tells that it has the entry |
| `AviFile.HeaderTells` | src/avi_record.c:714-800 | the header of a finished file: both super indexes have as many entries as there are movi lists, and the main header, both stream headers and the OpenDML header have the numbers of video frames and samples recorded |
| `AviFile.FixedFound` | src/avi_record.c:1096-1374 | the text of the INFO list and everything fixed when recording started is in its place |
| `AviFile.DurationFound` | src/avi_record.c:630-705 | the duration of a super index entry is the number of frames, or of bytes of audio |
| `AviFile.ChunksTile` | src/avi_record.c:752-875 | RIFF chunks tile the file from its first to its last byte, and each holds exactly its lists, and each movi list exactly its frames and indexes if no frame has an odd length |
| `ChangeApply.CountArgs` | src/change.c:583-597 | the first pass counts the arguments of the line |
| `ChangeApply.ShiftDown` | src/change.c:630-633 | the rest of the line with its NUL moves down one place |
| `ChangeApply.ParseArgs` | src/change.c:610-645 | the second pass leaves every argument as a NUL-terminated string where argv points, as many as the first pass counted, within the room allocated |
| `ChangeApply.ApplyCommandline` | src/change.c:577-651 | both passes together; a line without arguments is left alone |
| `ChangeCmd.ArgsOfLine` | python-ui/hatari.py:16-18 | exactly what a line of quoted paths is cut into, for every list of paths |
| `ChangeCmd.ArgsLose` | src/change.c:577-651 | the arguments have all characters of the paths but one for each white space that is not a space |
| `ChangeCmd.RoundTripIff` | python-ui/hatari.py:16-18 | for every list of paths: quoting and cutting give it back if and only if no path is empty, none but the last ends in a backslash, and none holds white space other than spaces |
| `ChangeCmd.RoundTripFails` | python-ui/hatari.py:16-18 | a list for each way to fail, and what becomes of it |
| `Text.TrimWorks` | src/str.c:28-58 | trimming leaves no white space at either end and leaves trimmed text alone |
| `CfgText.ScannedPrinted` | src/cfgopts.c:70-131 | every integer, printed and scanned, is itself again |
| `CfgText.PrintedForm` | src/cfgopts.c:220-230 | a number is printed with a minus exactly if it is negative, and without leading zeros |
| `CfgText.ParsedShown` | src/cfgopts.c:70-131 | the text written for a flag, character, number or string parses to that value whatever was there before |
| `CfgText.FlagRead` | src/cfgopts.c:87-92 | a flag is read from TRUE and FALSE in any mix of large and small letters, and from nothing else |
| `CfgText.TokenLineBack` | src/cfgopts.c:206-255 | a written line is cut into its key and its value text again |
| `CfgOpts.ReadLine` | src/cfgopts.c:147-200 | the next line, trimmed, or the end of the file |
| `CfgOpts.FindHeader` | src/cfgopts.c:157-168 | finds the first line that starts with the header |
| `CfgOpts.ApplyLine` | src/cfgopts.c:182-195 | a line sets the value of its key and no other |
| `CfgOpts.InputConfig` | src/cfgopts.c:147-200 | the values after loading a section, and how many were read |
| `CfgOpts.WriteHeaderTokens` | src/cfgopts.c:262-280 | a new section holds its header, one line per key in order, and an empty line |
| `CfgOpts.RewriteLine` | src/cfgopts.c:374-391 | the line of a key is replaced by the line for its value and its flag is set |
| `CfgOpts.UpdateSection` | src/cfgopts.c:344-408 | the new section: comments kept, known keys rewritten in place, missing ones added, the rest dropped |
| `CfgOpts.UpdateConfig` | src/cfgopts.c:296-466 | the whole new file and the number of lines written for keys; a missing file is an empty one |
| `CfgLaws.LoadUpdated` | src/cfgopts.c:296-466 | loading after an update takes over exactly the values of the keys the update kept |
| `CfgLaws.UpdateThenLoadIff` | src/cfgopts.c:393-408 | update then load gives every value back if and only if all keys are kept, which fails just when duplicate lines make the count equal the number of keys |
| `CfgLaws.KeyLost` | src/cfgopts.c:393-408 | a file with two lines for one key and none for another, which loses the value of the other |
| `CfgLaws.OnceIsComplete` | src/cfgopts.c:393-408 | a section in which no key is in two lines keeps all keys |
| `CfgStable.SecondUpdate` | src/cfgopts.c:296-466 | a second update of a section that was there changes nothing at all |
| `CfgStable.SecondUpdateAdded` | src/cfgopts.c:339-342 | where the section was added, the second update only drops the empty line at the end |
| `CfgStable.OthersUntouched` | src/cfgopts.c:416-425 | an update of one section leaves what is loaded from any other section as it was |
| `FileName.CutDirectory` | src/file.c:894-911 | the path is cut after the slash before its last one, or becomes the root |
| `FileName.CopyComponent` | src/file.c:928-934 | copies up to and with the next slash |
| `FileName.GoUp` | src/file.c:893-924 | one step up, in the middle or at the end of the name |
| `FileName.MakeAbsoluteName` | src/file.c:844-942 | the buffer ends up with the fold over the components of the name, written as text |
| `FilePath.Idempotent` | src/file.c:844-942 | the result is normal, and making it absolute again, from any working directory, changes nothing |
| `FilePath.NoDots` | src/file.c:844-942 | the result starts with a slash and no component between its slashes is "." or ".." |
| `Floppy.DoubleCheckFormat` | src/floppy.c:766-831 | the guess from the image size: common formats first, then a plausible boot value, then 80 tracks |
| `Floppy.CommonIff` | src/floppy.c:766-806 | a size has a common format exactly when it is that of 80 to 84 tracks of 9 to 12 sectors on all sides, and only one |
| `Floppy.UsualSizes` | src/floppy.c:766-831 | images of 360, 400, 720 and 800 kilobytes, whatever their boot sector holds |
| `Floppy.NoSectorsIff` | src/floppy.c:840-862 | the geometry has no sectors per track, so that the track count divides by zero, exactly for small images with a useless boot sector |
| `Floppy.NoSectors` | src/floppy.c:840-862 | such an image: one sector of zeros |
| `Floppy.Drive.FindDiskDetails` | src/floppy.c:840-862 | the geometry read from the boot sector or guessed |
| `Floppy.Drive.Locate` | src/floppy.c:885-933 | which places are accepted, and where they lie |
| `Floppy.Drive.ReadSectors` | src/floppy.c:870-944 | a read gives the address of its place, the sectors per track and the sector size, or fails exactly for places outside the disk or without a disk |
| `Floppy.Drive.WriteSectors` | src/floppy.c:952-1026 | a write replaces exactly its sectors and marks the disk changed; refused ones change nothing |
| `Floppy.RangeInsideIff` | src/floppy.c:890-933 | so many sectors from a place on stay inside the image exactly when so many are left; a whole track from its first sector on always does |
| `Floppy.BlockInside` | src/floppy.c:885-938 | every accepted place lies inside the image |
| `Floppy.BlockInjective` | src/floppy.c:931-935 | two accepted places never share a block |
| `Floppy.AddressesIff` | src/floppy.c:931-935 | the byte addresses are disjoint and inside the image if and only if a track has at most 127 sectors or there is no second track on any side |
| `Floppy.WriteThenRead` | src/floppy.c:967-1020 | after a one-sector write that sector reads as written, all others as before, and the geometry is unchanged |
| `BlankImage.WriteShortLE` | src/createBlankImage.c:60-66 | two bytes, low one first, and no other |
| `BlankImage.CreateImage` | src/createBlankImage.c:76-190 | every byte of the new image, serial number apart |
| `BlankImage.BootWritten` | src/createBlankImage.c:106-152 | the boot sector of a new image has the fields asked for |
| `BlankImage.UsualValues` | src/createBlankImage.c:24-41 | the values of the fields for the usual formats |
| `BlankImage.MediaTells` | src/createBlankImage.c:131-141 | the media byte tells high density, sides and tracks |
| `BlankImage.FatLargeEnough` | src/createBlankImage.c:118-149 | the root directory fills whole sectors and a FAT has an entry for each cluster |
| `BlankImage.GeometryBack` | src/createBlankImage.c:130-152 | the boot sector decodes to the sectors, sides and tracks asked for |
| `BlankImage.GeometryBackIff` | src/createBlankImage.c:130-152 | for every size of one or two sides: up to 48 sectors per track that holds exactly when the total fits 16 bits or, on two sides, the boot sector or the size still gives it; beyond 48 exactly when the size does |
| `BlankImage.GeometryLost` | src/createBlankImage.c:130-131 | a disk for which it does not: 4096 tracks of 17 sectors on one side are taken for two sides |
| `BlankImage.FitsIff` | src/createBlankImage.c:155-176 | which disks are large enough for all that is written: with a label two sectors more than both FATs, without one two more than one FAT |

## Left out

- Blitter timing: cycle countdowns, the 68000 cycle-exact phases and the origin of the bus count error, which is a parameter of every start here. Addresses are those of one memory map without mirrors. The X count register is taken as written once since the reset.
- BlitterRefinement.BlitMemory: holds for blits that do not write a word they read again later or a destination word twice; `BlitterSpec.ApartIsEnough` gives a large class of such blits. Others are defined by the step function only.
- BlitterDevice.Blitter.WriteControl: the branch outside 68000 cycle-exact mode. The pre-start phase of that mode and the removal of its pending interrupt are not modelled.
- CycIntQueue.TimersKeepTheBeat: for services that are late by at most 2^31 internal cycles and due times below 2^64; the first bound is exact (`CycIntQueue.NoDriftIff`).
- Cycle interrupts: memory snapshots and the handler function table. The clock frequencies are constants of the scheduler here.
- ACIA: MIDI and IKBD wiring, wait states and the snapshot. `AciaLink.StreamArrives` reads RDR before the next frame ends; what happens otherwise is stated by the overrun laws.
- ConvGen.Screen.ConvertZoomed: for integer factors, which is what the source uses whenever the screen is at least as large as the frame.
- Planar conversion: the variants without zoom and the 16-bit colour modes, tables for factors that are not integers on screens smaller than the frame, the big-endian branch, wrap-around of the 32-bit line end address.
- DmaSnd.Sound.OneSample: the raw levels, before the low-pass filter and the mixing.
- DmaSnd.Sound.Generate: the raw levels, before filters, mixing, volume and tone.
- DMA sound: filters, volume and tone, mixing with the YM2149, the microwire. Levels are the raw sample bytes. Memory is given to each call, as the CPU may change it between calls.
- Clock tables and frame rates of `src/clocks_timings.c`: plain arithmetic on constants.
- Rates.ConversionsAddUp: for calls that do not overflow 64 bits; the method itself wraps.
- Avi.Recorder.constructor: the fixed contents of the stream headers are given as byte strings of their sizes.
- AVI: PNG frames and file errors. Pixels are given by colour component; masks and shifts of the host pixel format are not modelled.
- AviFile.FrameFound: for recordings whose frames come in turn, each below 2^28 bytes, in at most 256 movi lists. Other recordings are covered by the exact file contents of `Avi.Recorder.StopRecording` only. The source has no check for the 257th list.
- AviFile.ChunksTile: for movi lists without a frame of odd length; `AviLayout.FirstOdd` states what such a frame breaks.
- Command lines: the options themselves and the caller, which trims the line, so that a last path ending in a space loses it. The copy inside the buffer is taken as a move, although the source uses an overlapping `memcpy`.
- CfgText.ParsedShown: flags, characters, numbers (short, int and long alike) and strings. Floating point and key names are not modelled, nor numbers outside the range of their type.
- Settings files: lines over 1023 characters, which the source splits; files whose last line has no line end. A missing header argument.
- Paths: drive letters of other systems, names that with the working directory do not fit the buffer.
- Floppy.Drive.WriteSectors: for counts that stay inside the image and the buffer; the source does not check either, and `Floppy.RangeInsideIff` says when they do. A geometry without sectors per track divides by zero in the source; `Floppy.NoSectorsIff` says when.
- Blank images: saving to a file and compression. Disks smaller than `BlankImage.FitsIff` says, for which the source writes past its buffer.
- Dialogs, screen set-up, trace output, other disk and archive formats, configuration tables: no part of this model.
