# DMX, DHCP, DNS, keypad and configuration of the Remote Focus Unit

The firmware of this repository turns a Pico W into a wireless DMX512 console: a browser keypad posts
command strings, an interpreter turns them into frames of channel levels, and a PIO state machine fed by
DMA puts the frames on the line. Around that, the unit is its own access point with a DHCP server and a
DNS responder, and it keeps its configuration in a flash-backed EEPROM emulation. The files here model
these parts and prove what they are for.

- **The DMX link** (`Pio`, `Bits`, `DmxTransmit`, `DmxWaveform`, `DmxTwin`, `DmxReceive`, `DmxLink`,
  `DmxResync`, `DmxLoop`, `DmxDevices`). The instruction words of the two PIO programs are decoded and executed one
  step per cycle, with delays, side-set, shift registers, blocking `pull` and the four-word TX FIFO that
  a DMA channel fills under an arbitrary schedule of bus grants. Each program refines a small machine of
  phases; the phases give the waveform in closed form; and the receiver, sampling that waveform with a
  clock of its own rate and phase (time is a real number), pushes exactly the bytes sent. The clock
  tolerance and the break threshold are exact.
- **The DHCP server** (`DhcpOptions`, `DhcpServer`, `DhcpRuns`, `DhcpAnswers`). True time is an unbounded number of
  milliseconds; the server sees it modulo 2^32 and keeps 16 bits per lease. Runs are arbitrary
  interleavings of messages with a log of the ACKs sent.
- **The keypad, from the browser to the DMA channel** (`KeyStrings`, `KeyCommands`, `Firmware`,
  `KeypadText`, `Padding`, `Browser`, `BrowserKeys`, `BrowserRuns`, `BrowserClauses`, `SoloWalks`, `SoloMode`,
  `BrowserZero`, `Tasks`, `History`, `Progress`, and `EndToEnd`, which joins them to the link). Commands have a
  meaning as a fold of clauses over frames; `processKeys` computes it from the text; the browser's zero
  padding keeps it; the browser's own list of channels agrees with the firmware's frame over every run;
  and the interleavings of `dmx_task`, `dmx_loop`, new commands and the DMA channel are a state machine.
- **The DNS responder** (`Dns`), against an independent parser of names and messages.
- **The EEPROM and the configuration** (`Eeprom`, `Config`): a write-back cache over one flash sector,
  and the checksum protocol on top of it.

What the source changes in place is a class or a method over arrays (`DmxDevices.StateMachine`,
`DmxDevices.DmxOutput`, `DmxDevices.DmxInput`, `DhcpServer.DhcpServer`, `Firmware.Dmx`, `Firmware.Rfu`,
`Browser.Keypad`, `Eeprom.EEPROMClass`, `Config.ConfigStore`, `Dns.Process`), each method proved equal to
a step of a specification function; the lemmas are about those functions.

`dafny verify dfyconfig.toml` verifies the whole project.

## Hardware assumed

Taken from the PIO as it is configured here: OSR and ISR shift right; a byte-wide DMA write lands in the
low eight bits of the FIFO word (the model lets the other 24 bits be anything); the TX FIFO is four deep;
a delay begins when the instruction, and any stall of it, is over; side-set takes effect in the first
cycle of an instruction even if it stalls; restarting a state machine clears its ISR and its delay but
neither X, OSR nor the TX FIFO; an executed `jmp` ends a pending wait or delay; the joined RX FIFO is eight
deep, and the DMA channel of the receiver is granted the bus eight times in any 328 ticks. Erased flash reads 255.

## Results worth knowing

- The comment at DMX/external/Pico-DMX/src/DmxOutput.cpp:106 says that a restart clears the buffers. It
  does not empty the TX FIFO: `DmxWaveform.SendsUniverseIffFifoWasEmpty`.
- `busy` turns false exactly 51 cycles before the last slot is over, and a `write_dmx` in that window cuts
  the slot: `DmxWaveform.BusyEndsExactly`, `DmxResync.LastSlotWholeExactly`. A receiver that is rearmed
  by then still gets the next frame whole: `DmxResync.RealignsOnNextFrame`.
- The truncated dividers keep the link in tolerance exactly from 35 at the transmitter and 16 at the
  receiver on: `DmxResync.DividersAreToleratedExactly`.
- With `dmx_loop` on, a frame can be torn when `dmx_loop` ticks between the busy test and the flag of
  `dmx_task`, and only then: `Tasks.TickTearsExactly`, `Tasks.WholeWithoutWindowTicks`, `Tasks.FirstFrameTorn`.
- Of several clauses in one command the browser lists only the first: `BrowserClauses.SeveralAgreeExactly`;
  of a list and a THRU in one selection only the range: `BrowserClauses.MixedAgreesExactly`.
- A command that arrives while an earlier frame still waits in the queue starts from the old buffer:
  `History.NextFrameExactly`.
- In the browser, level 0 removes an entry only under the digits typed, and a solo step with
  level 0 lists a dark channel: `BrowserZero.ZeroLevelAgreesExactly`, `BrowserZero.SoloLevelAgreesExactly`.
- A lease whose MAC is all zeros holds nothing: `DhcpRuns.ZeroMacHoldsNothing`; a lease that expired reads
  as valid again from 2^31 ms later, and so on in turns: `DhcpRuns.ExpiredExactly`.
- `commit` leaves the dirty flag up (EEPROM/src/EEPROM.cpp:101-124) and erases the flash behind the cached
  part: `Eeprom.CleanCacheIsFlash`, `Eeprom.CommitErasesTheRest`.
- The checksum of the configuration does not cover the upper three bytes of each length:
  `Config.ChangedByteIsNoticed`.
- The DNS responder answers a query whose name the datagram breaks off: `Dns.BrokenNameIsAnswered`.

## Model

| member | source | states |
|---|---|---|
| DmxTransmit.WordsMatchSource | DMX/external/Pico-DMX/src/DmxOutput.pio:3-25 | The sixteen emitted words decode to the assembly listing, instruction for instruction, in both halves |
| DmxTransmit.StepRefinesPhase | DMX/external/Pico-DMX/include/DmxOutput.pio.h:20-35 | From every state that stands for a phase, one cycle of the program drives the level of that phase, ends in the next phase, and takes a word exactly when the phase is idle and a word is there |
| DmxTransmit.RunRefines | DMX/external/Pico-DMX/include/DmxOutput.pio.h:20-35 | Over any number of cycles and any DMA schedule the machine stays in step with the phases, and the line carries their levels |
| DmxWaveform.AdvanceConserves | DMX/external/Pico-DMX/src/DmxOutput.cpp:118-127 | Words taken, queued and not yet moved always concatenate to the same list: DMA and FIFO lose, add and reorder nothing, the FIFO never holds more than four, and a word is moved if and only if DMA is granted the bus, has one left, and finds room behind the pull of that cycle |
| DmxWaveform.CycleKeepsSending | DMX/external/Pico-DMX/src/DmxOutput.cpp:100-128 | The invariant of a transmission: taken, queued and waiting words make up the whole, in order, the pulls are at least a slot apart, and the cycle count fits the phase |
| DmxWaveform.PhaseRunIsFrame | DMX/external/Pico-DMX/include/DmxOutput.pio.h:20-27 | Every run of the phase machine has emitted exactly the closed-form frame of the words it took |
| DmxWaveform.Waveform | DMX/external/Pico-DMX/src/DmxOutput.cpp:100-120 | After any number of cycles under any stalls the line of write_dmx so far is the closed form (177 break cycles, mark, then per word a start bit, eight bits LSB first, stop bits) of the words taken, and taken, queued and waiting words are the old FIFO followed by the universe |
| DmxWaveform.FrameLevelInSlot | DMX/external/Pico-DMX/include/DmxOutput.pio.h:23-27 | Between two pulls the line depends on the word pulled last and on nothing else |
| DmxWaveform.FrameLevelInPreamble | DMX/external/Pico-DMX/include/DmxOutput.pio.h:20-22 | Before the first pull: 177 cycles of break, then mark |
| DmxWaveform.FrameMeetsMinima | DMX/external/Pico-DMX/include/DmxOutput.pio.h:20-27 | For all data and all stalls: break, mark after break, slot length and two stop bits keep the minima of section 8 of ANSI E1.11 |
| DmxWaveform.BusyMeansNotAllTaken | DMX/external/Pico-DMX/src/DmxOutput.cpp:122-128 | busy is true if and only if some word has not been taken by the program yet |
| DmxWaveform.BusyBound | DMX/external/Pico-DMX/src/DmxOutput.cpp:122-128 | Once busy is false all words were taken in order, the last slot ends within 51 cycles, and from its stop bits on the line stays at mark |
| DmxWaveform.BusyEndsExactly | DMX/external/Pico-DMX/src/DmxOutput.cpp:122-128 | busy turns false in the cycle that takes the last word, exactly 51 cycles before the last slot is over |
| DmxWaveform.UnstalledTransmission | DMX/external/Pico-DMX/src/DmxOutput.cpp:100-128 | With DMA always granted the words are taken every 52 cycles from cycle 185 on, and busy turns false with the last of them: write_dmx ends |
| DmxWaveform.SendsUniverseIffFifoWasEmpty | DMX/external/Pico-DMX/src/DmxOutput.cpp:103-119 | A finished transmission sent exactly its universe if and only if the TX FIFO was empty at the call |
| DmxWaveform.InterruptedWriteLeavesWord | DMX/external/Pico-DMX/src/DmxOutput.cpp:103-119 | A write of byte 1 broken off after a cycle, then a write of byte 2: 1, 2 is sent |
| DmxTwin.ComplementBits | DMX/external/Pico-DMX/include/DmxOutput.pio.h:33-34 | Shifting k bits out of b and of 255 - b leaves complementary bits, and the next bit differs |
| DmxTwin.InvertedTwin | DMX/external/Pico-DMX/include/DmxOutput.pio.h:20-35 | From a common DMA schedule the program entered at 8 on the complemented bytes drives the complement of the line in every cycle, and each half keeps to its own code |
| DmxReceive.WordsMatchSource | DMX/external/Pico-DMX/include/DmxInput.pio.h:19-30 | The eleven emitted words decode to the listed instructions, with their delays |
| DmxReceive.RunRefines | DMX/external/Pico-DMX/include/DmxInput.pio.h:18-32 | Over every line and any number of ticks the receiver program, with PUSH never stalling, stays in step with the listener phases, pushes included |
| DmxReceive.PushNeverStalls | DMX/external/Pico-DMX/include/DmxInput.pio.h:30 | With an RX FIFO of eight words and eight DMA grants in any 328 ticks, however unevenly spread, PUSH never stalls: the receiver behaves as without a FIFO, and every word pushed is in it or was moved on, in order |
| DmxReceive.PushStallsExactly | DMX/external/Pico-DMX/include/DmxInput.pio.h:30 | At PUSH, without a grant, the receiver stands still if and only if eight words wait |
| DmxReceive.GrantsInSlots | DMX/external/Pico-DMX/include/DmxInput.pio.h:30 | Under such a supply, any j slots bring grants for all but the last seven words |
| DmxReceive.PackedByte | DMX/external/Pico-DMX/src/DmxInput.cpp:65-67 | Eight bits shifted in from the left and 24 zeros leave the byte, whatever the register held before |
| DmxReceive.ReceiveByte | DMX/external/Pico-DMX/include/DmxInput.pio.h:24-30 | If the samples at ticks 6 + 4k after the edge carry the bits of w and a stop bit follows, the low byte of w is pushed within 42 ticks and the program waits for the next edge |
| DmxReceive.FirstByteTopBit | DMX/external/Pico-DMX/include/DmxInput.pio.h:24-30 | Whatever the other samples are, the top bit of the first byte pushed is the level at tick 34 |
| DmxReceive.DetectorIsSound | DMX/external/Pico-DMX/include/DmxInput.pio.h:19-22 | On a line whose marks so far lasted three ticks or more, the detector never passes before a low run of 88 ticks |
| DmxReceive.DetectorIsComplete | DMX/external/Pico-DMX/include/DmxInput.pio.h:19-22 | On such lines it passes after every low run of 89 ticks, at most 91 ticks after the line fell |
| DmxReceive.EightyEightTicksDependOnPhase | DMX/external/Pico-DMX/include/DmxInput.pio.h:19-22 | A low run of exactly 88 ticks passes if and only if the detector is at its sampling instruction when the line falls |
| DmxReceive.AcceptFromAnyPhase | DMX/external/Pico-DMX/include/DmxInput.pio.h:19-22 | Whatever phase the detector has reached on the line before, at most 91 low ticks take it past the break |
| DmxLink.SamplesInCells | DMX/external/Pico-DMX/include/DmxInput.pio.h:24-30 | With the receiver tick between 32/34 and 36/35 of a cycle and any phase, sample k falls into the bit cell k and sees its level |
| DmxLink.FindsBreak | DMX/external/Pico-DMX/include/DmxInput.pio.h:19-24 | A receiver armed up to 80 cycles into the break waits for the first start edge within 3 cycles of its end |
| DmxLink.ReceivesFrame | DMX/external/Pico-DMX/include/DmxInput.pio.h:18-32 | For every frame, stall pattern, clock ratio and phase in tolerance, the receiver pushes exactly the bytes of the frame, in order, and nothing more |
| DmxLink.TransmissionCarries | DMX/external/Pico-DMX/src/DmxOutput.cpp:100-120 | A finished write_dmx puts a frame of what the FIFO held and then its universe on the line |
| DmxLink.LinkRoundTrip | DMX/external/Pico-DMX/src/DmxInput.cpp:132-180 | The receiver program inverts the transmitter program: for every universe, FIFO content, DMA schedule, register contents, line before the break (a slot the break cuts included), clock rate and phase in tolerance, what is pushed is what was sent |
| DmxLink.LinkFillsBuffer | DMX/external/Pico-DMX/src/DmxInput.cpp:155-163 | A buffer no longer than the frame is filled, and from then on holds the first bytes of the frame |
| DmxLink.TooFastFails | DMX/external/Pico-DMX/src/DmxInput.cpp:71-73 | Below 32/34 a byte is decoded wrongly |
| DmxLink.TooSlowFails | DMX/external/Pico-DMX/src/DmxInput.cpp:71-73 | Above 36/35 there is a phase in which a byte is decoded wrongly |
| DmxLink.ToleranceIsExact | DMX/external/Pico-DMX/include/DmxInput.pio.h:24-30 | Every byte decodes in every phase if and only if the tick lies in [32/34, 36/35] |
| DmxResync.DataSlotsAreQuiet | DMX/external/Pico-DMX/include/DmxInput.pio.h:19-22 | No part of a frame from the last 79 cycles of its break on, broken off anywhere, holds anything the detector could take for a break |
| DmxResync.RealignsOnNextFrame | DMX/external/Pico-DMX/src/DmxInput.cpp:111-118 | A receiver rearmed at any point of a transmission from the last 79 cycles of its break on pushes exactly the bytes of the next one, wherever that begins: after a pause, in the cycle busy turns false, or in the middle of a slot |
| DmxLoop.EveryFrameIsTaken | DMX/external/Pico-DMX/src/DmxInput.cpp:111-130 | The closed loop: over any sequence of transmissions whose first slots are whole, with any DMA schedules, clock ratio and phase in tolerance and a handler that runs within 77 ticks of a full buffer, the receiver takes the first bytes of every transmission, in order, each once, and nothing else |
| DmxLoop.FrameIsReceived | DMX/external/Pico-DMX/src/DmxInput.cpp:111-118 | The first bytes of a frame are received before the frame is over, none before its break is over, and what is received begins with them |
| DmxLoop.NothingMoreTaken | DMX/external/Pico-DMX/src/DmxInput.cpp:111-118 | After the last transmission no buffer is taken any more |
| EndToEnd.StageShowsCommands | ProjectFiles/main.cpp:100-185 | From keys to buffers: with dmx_loop off and commands typed when the queue is drained, buffer i that a receiver at the end of the line takes has start code 0 and shows on channels 1 to 511 the fold of the first i commands |
| EndToEnd.AllButLastWhole | ProjectFiles/main.cpp:109-116 | Waiting for busy to turn false leaves the start code and the channels 1 to 511 of every transmission whole |
| DmxResync.LastSlotWholeExactly | DMX/external/Pico-DMX/src/DmxOutput.cpp:100-128 | A write_dmx after busy turned false leaves the stop bits of the last slot whole if and only if it comes 52 or more cycles after the last pull |
| DmxResync.SecondWriteCutsSlot | DMX/external/Pico-DMX/src/DmxOutput.cpp:100-128 | One byte without stalls: busy turns false in cycle 186, and a second write in cycle 187 cuts the slot |
| DmxResync.CycleTimeBounds | DMX/external/Pico-DMX/src/DmxOutput.cpp:56-58 | The truncated divider makes a cycle at most 1 us, less than one part in the divider shorter, and exactly 1 us if and only if the clock is a multiple of 1 MHz |
| DmxResync.DividersAreTolerated | DMX/external/Pico-DMX/src/DmxOutput.cpp:56-58 | With a divider of at least 35 at the transmitter and 16 at the receiver the truncation keeps the link in tolerance |
| DmxResync.DividersAreToleratedExactly | DMX/external/Pico-DMX/src/DmxOutput.cpp:56-58 | For every pair of dividers: all system clocks that give these dividers keep the link in tolerance if and only if the transmitter's is at least 35 and the receiver's at least 16 |
| DmxDevices.StateMachine.Clock | DMX/external/Pico-DMX/include/DmxOutput.pio.h:18-37 | One cycle on the registers in place does what the PIO semantics says, stalls and delays included |
| DmxDevices.DmxOutput.Write | DMX/external/Pico-DMX/src/DmxOutput.cpp:100-120 | The object after write_dmx: entry point by polarity, universe handed to DMA, FIFO as it was |
| DmxDevices.DmxOutput.IsBusy | DMX/external/Pico-DMX/src/DmxOutput.cpp:122-128 | busy is the DMA channel or the FIFO having words left |
| DmxDevices.DmxOutput.Run | DMX/external/Pico-DMX/src/DmxOutput.cpp:100-128 | The object clocked n times records the specified line and ends in the specified state |
| DmxDevices.DmxInput.constructor | DMX/external/Pico-DMX/src/DmxInput.cpp:132-180 | read_async: restart at the program start, transfer of as many bytes as the buffer has, time stamp |
| DmxDevices.DmxInput.ListenTo | DMX/external/Pico-DMX/src/DmxInput.cpp:152-172 | The receiver object after n ticks is the specified receiver, and its buffer holds the low bytes of the words pushed until it is full, which raises the interrupt |
| DmxDevices.DmaHandler | DMX/external/Pico-DMX/src/DmxInput.cpp:111-130 | Every active input whose channel raised the interrupt is rearmed, with its transfer and time stamp, every other one is left alone |
| DhcpOptions.OptFind | ProjectFiles/dhcpserver/dhcpserver.c:146-154 | The loop returns the first option with the code, for arbitrary bytes, and ends with all reads in bounds |
| DhcpOptions.FindInEncoded | ProjectFiles/dhcpserver/dhcpserver.c:146-154 | Over the encoding of any list of options that fits, opt_find returns the first option with the code, length and value included, and nothing if and only if the list has none, whatever follows in memory |
| DhcpOptions.EncodeAppend | ProjectFiles/dhcpserver/dhcpserver.c:156-162 | Writing one option behind a list encodes the longer list |
| DhcpOptions.OptWriteN | ProjectFiles/dhcpserver/dhcpserver.c:156-162 | The option is written at the cursor, the cursor moves behind it, and no other byte changes |
| DhcpOptions.OptWriteU8 | ProjectFiles/dhcpserver/dhcpserver.c:164-170 | The same for one byte |
| DhcpOptions.OptWriteU32 | ProjectFiles/dhcpserver/dhcpserver.c:172-181 | The same for four bytes in network order |
| DhcpOptions.BigEndianValue | ProjectFiles/dhcpserver/dhcpserver.c:172-181 | The four bytes written for a 32-bit value give it back in network order |
| DhcpOptions.WriteOptions | ProjectFiles/dhcpserver/dhcpserver.c:156-162 | Writer calls for any list of options leave its encoding and END, no other byte changes, and opt_find then finds for every code what the list has |
| DhcpServer.FirstHeld | ProjectFiles/dhcpserver/dhcpserver.c:217-222 | The lowest slot that holds the MAC, or 8 |
| DhcpServer.FirstUsable | ProjectFiles/dhcpserver/dhcpserver.c:223-235 | The lowest slot that is free or expired, or 8 |
| DhcpServer.DhcpServer.constructor | ProjectFiles/dhcpserver/dhcpserver.c:297-305 | All eight slots start free |
| DhcpServer.DhcpServer.Discover | ProjectFiles/dhcpserver/dhcpserver.c:215-240 | The loop over the slots in place, reading the tick counter anew for each, offers the specified slot and leaves the specified table |
| DhcpServer.DhcpServer.Request | ProjectFiles/dhcpserver/dhcpserver.c:261-271 | The slot is granted if and only if it is the client's or free; then it has the MAC and the deadline, and otherwise nothing changes |
| DhcpServer.DhcpServer.Process | ProjectFiles/dhcpserver/dhcpserver.c:183-295 | Every message, malformed ones included, gets the specified verdict; a reply has op 2, the server's address with last octet 16 + slot, slot below 8, and an option field that encodes the reply options with type 2 or 5 and ends in 255; an ignored message changes no byte |
| DhcpServer.BuildReply | ProjectFiles/dhcpserver/dhcpserver.c:284-289 | The writers leave the encoding of the six reply options and END |
| DhcpServer.EncodedReply | ProjectFiles/dhcpserver/dhcpserver.c:284-289 | The reply is a list of options, in the layout of section 2 of RFC 2132 |
| DhcpRuns.AliveUntilLastMs | ProjectFiles/dhcpserver/dhcpserver.c:229-230 | A lease never reads as expired within 24 hours of true time, in spite of the 16-bit deadline and the wrapping clock |
| DhcpRuns.ExpiredExactly | ProjectFiles/dhcpserver/dhcpserver.c:229-230 | When a lease reads as expired, for all true times: after its last millisecond, for 2^31 ms, and then every other 2^31 ms |
| DhcpRuns.RunKeepsBinding | ProjectFiles/dhcpserver/dhcpserver.c:214-278 | Over every run every ACK still binds its slot until its day is over |
| DhcpRuns.LeaseExclusivity | ProjectFiles/dhcpserver/dhcpserver.c:214-278 | Over every run from every table: an address ACKed to a client with a non-zero MAC is ACKed to another only more than 86,400,000 ms later |
| DhcpRuns.EncodedRequest | ProjectFiles/dhcpserver/dhcpserver.c:246-260 | Any list of options with message type REQUEST and one of the unit's addresses is read as a request for that slot |
| DhcpRuns.ReplyIsReadable | ProjectFiles/dhcpserver/dhcpserver.c:284-289 | What a client finds in a reply under every code: type, server, mask, router, name server and 86,400 s |
| DhcpRuns.DiscoverAllocates | ProjectFiles/dhcpserver/dhcpserver.c:215-240 | The client's first slot, else the lowest free or expired one, and no offer if and only if there is neither; at most one slot is cleared, an expired one of another client |
| DhcpAnswers.RequestAnsweredExactly | ProjectFiles/dhcpserver/dhcpserver.c:246-278 | Any list of options with message type 3 and option 50 of four bytes or more is granted slot k if and only if those bytes are the first three of the server's address and 16 + k, k is below 8, and the slot has the client's MAC or all zeros; then only that slot changes, and otherwise the message is ignored and nothing changes |
| DhcpAnswers.OthersAreIgnored | ProjectFiles/dhcpserver/dhcpserver.c:192-250 | Messages below 243 bytes, without a type, of a type other than 1 and 3, and a REQUEST without option 50 are ignored and change nothing |
| DhcpAnswers.DiscoverAnsweredExactly | ProjectFiles/dhcpserver/dhcpserver.c:215-240 | A DISCOVER is offered slot k if and only if k is the first with its MAC, or there is none and k is the first free or expired one; and a slot is cleared if and only if it is the first free or expired one, is expired, and no slot up to it has the client's MAC |
| DhcpRuns.Handshake | ProjectFiles/dhcpserver/dhcpserver.c:214-278 | A client that asks for the slot it was offered gets it, after any run in which no other client was ACKed on it |
| DhcpRuns.ZeroMacHoldsNothing | ProjectFiles/dhcpserver/dhcpserver.c:261-271 | Within the day of an ACK another client is ACKed on the same slot if and only if the first MAC was all zeros |
| KeyStrings.AtoiOfNumeral | ProjectFiles/main.cpp:163-179 | atoi of digits that spell a number an int can hold is that number |
| KeyStrings.AtoiOfSigned | ProjectFiles/main.cpp:163-179 | A sign counts |
| KeyStrings.AtoiSkipsSpace | ProjectFiles/main.cpp:163-179 | White space in front of a number does not |
| KeyStrings.Split | ProjectFiles/main.cpp:136-140 | strtok at blanks yields the maximal blank-free pieces, in order |
| KeyStrings.SplitOfJoin | ProjectFiles/main.cpp:136-140 | Splitting undoes joining with blanks |
| KeyStrings.TokensAtBlank | ProjectFiles/main.cpp:136-140 | In every string a blank separates, wherever it stands: the tokens of two strings with a blank between them are those of the first and then those of the second |
| KeyCommands.InterpreterRefinesMeaning | ProjectFiles/main.cpp:126-185 | For every list of clauses (channels 1 to 511 and ranges, then AT a level that an int can hold, or FULL), with the word AND between selections, between clauses or anywhere: the token interpreter leaves the frame its meaning gives, level modulo 256, reversed ranges as their first channel, other channels unchanged, and captures exactly the channels named |
| KeyCommands.AndsDoNotMatter | ProjectFiles/main.cpp:146-147 | Tokens that begin with AND change nothing, wherever they stand |
| KeyCommands.AndJoinedDropped | fs/keypad.html:34 | Clauses with AND between them, the only way to type two, are the command up to ANDs |
| KeyCommands.LastClauseWins | ProjectFiles/main.cpp:141-183 | A channel has the level of the last clause that names it, or its old level |
| KeyCommands.ClauseExactly | ProjectFiles/main.cpp:148-183 | A clause sets a channel if and only if it names it or spans it with a THRU, to 255 or its number modulo 256 |
| KeyCommands.NumbersExactly | ProjectFiles/main.cpp:163-183 | A number that an int can hold is a level after AT, the end of a range after THRU if it is from 1 to 512, and a channel else, modulo 65536 |
| KeyCommands.KeywordsArePrefixes | ProjectFiles/main.cpp:142-161 | A key word is known by its first letters, whatever follows |
| KeyCommands.RunSel | ProjectFiles/main.cpp:170-181 | A selection adds its channels in order; THRU counts up from the last one selected |
| KeyCommands.ReleaseClears | ProjectFiles/main.cpp:142-145 | release gives the zero frame and the empty set |
| KeyCommands.ReleaseAnywhere | ProjectFiles/main.cpp:142-145 | A token that begins with release clears everything wherever it stands, and what comes behind it is not read |
| Firmware.Dmx.constructor | DMX/src/piodmx.cpp:4-12 | The shadow buffer starts as i mod 256 |
| Firmware.Dmx.SendDMX | DMX/src/piodmx.cpp:30-32 | sendDMX starts a transmission of the whole shadow buffer |
| Firmware.Dmx.IsBusy | DMX/src/piodmx.cpp:34-36 | busy is the transmitter's or the flag |
| Firmware.Dmx.ForceBusy | DMX/include/piodmx.h:18 | The flag is set |
| Firmware.Dmx.UnsafeWriteBuffer | DMX/src/piodmx.cpp:69-74 | All channels are copied, and the start code only without noStartCode |
| Firmware.Dmx.GetShadowBuff | DMX/include/piodmx.h:20 | All channels are copied out, the start code is not |
| Firmware.Rfu.ProcessKeys | ProjectFiles/main.cpp:126-185 | processKeys on any string leaves the interpreted captured set and sends the interpreted frame: to the queue, or blocked while that is full |
| Firmware.Rfu.ProcessToken | ProjectFiles/main.cpp:141-183 | Each token, in place, does what the interpreter step does |
| Firmware.Rfu.SendFrame | ProjectFiles/main.cpp:184 | The frame goes to the queue, or, if that is full, is held by the blocked sender |
| Firmware.Rfu.ResumeSend | ProjectFiles/main.cpp:184 | A blocked send goes on as soon as there is room, with the frame it held |
| Firmware.Rfu.ServeFrame | ProjectFiles/main.cpp:106-117 | A round of dmx_task, with the transmitter free: the frame is copied under the flag, the start code kept, and sent unless dmx_loop does that |
| Firmware.Store | ProjectFiles/main.cpp:164-166 | The loop writes the level to the listed channels and to no other |
| Firmware.Clear | ProjectFiles/main.cpp:143 | All 512 bytes of the frame are 0 |
| Firmware.PushRange | ProjectFiles/main.cpp:173-175 | The loop appends the channels from the one after the last selected to the end of the range |
| Padding.PaddingKeepsMeaning | fs/keypad.js:100-105 | For every string that spells a command, whatever its blanks and ANDs, the zero-padded string has the same effect in the firmware as the string typed, and that effect is the meaning of the command |
| Padding.PaddedCommand | fs/keypad.js:100-105 | Padded, it spells the command with every number padded |
| Padding.PadKeepsTokens | fs/keypad.js:102-104 | In every string whatever, padding works token by token |
| Padding.PadIdempotent | fs/keypad.js:100-105 | Padding what is padded, as solo mode and a repeated command do, changes nothing, for every string |
| KeypadText.PadOfJoin | fs/keypad.js:102-104 | In a string of keys the regular expression pads every one- or two-digit number and nothing else |
| KeypadText.PaddedBehind | fs/keypad.js:102-104 | One or two digits behind a character are padded if and only if that is no letter and no underscore |
| KeypadText.SplitAtBlanksOfJoin | fs/keypad.js:66 | Splitting the buffer gives back the keys typed |
| KeypadText.SplitAtEveryBlank | fs/keypad.js:66 | In every string every blank separates, and empty pieces stay |
| KeypadText.SoloFindsLastNumber | fs/keypad.js:32 | In a padded command the match is the number before AT, and what follows is the level |
| KeypadText.SoloMatchIsFirst | fs/keypad.js:32 | In every string the match is the first position at which three digits begin a word and have AT behind them, and there is none if and only if there is no such position |
| Browser.CollectChannels | fs/keypad.js:66-84 | The channel strings of a buffer, for any keys: those before AT other than AND, or the numbers of the range, and none if an end of it is not a number |
| Browser.ParseIntOfNumeral | fs/keypad.js:83 | parseInt of digits is their number |
| Browser.ParseIntOfDigits | fs/keypad.js:83 | parseInt minds a sign and stops where the digits end |
| Browser.ParseIntOfHex | fs/keypad.js:83 | Behind 0x it reads hexadecimal digits |
| Browser.Keypad.AppendKey | fs/keypad.js:50-58 | A key is appended; FULL pressed twice sends |
| Browser.Keypad.ClearDisplay | fs/keypad.js:60-63 | The buffer is emptied, nothing else |
| Browser.Keypad.Parse | fs/keypad.js:65-97 | The list after a buffer: entries set under three digits, or deleted as typed for level 0 |
| Browser.Keypad.Send | fs/keypad.js:100-128 | The padded string is posted and kept, the list follows the string typed |
| Browser.Keypad.PressRelease | fs/keypad.js:130-155 | release empties the list and the buffer, leaves solo mode and is posted (`SoloMode.ReleaseEndsSolo` says so in every session) |
| Browser.Keypad.PressSolo | fs/keypad.js:17-28 | Solo mode is entered with the last command in the buffer, or left with a release (`SoloMode.FirstSoloBegins`, `SoloMode.SecondSoloEndsSolo`) |
| Browser.Keypad.PressSoloChange | fs/keypad.js:30-48 | A solo step sends the old channel to 0 and the next one to the level, and nothing outside solo mode or without a match |
| BrowserRuns.EnterAgrees | fs/keypad.js:65-128 | After a command with a level from 1 to 255 or FULL the list equals the non-zero channels of the frame the firmware makes of the padded string, if it did before |
| BrowserRuns.ChannelOff | fs/keypad.js:33-36 | Switching a three-digit channel off drops its entry and zeroes its level |
| BrowserRuns.SoloStepFrame | fs/keypad.js:30-48 | A solo step, with any level: the old channel goes to 0, the next one to the level, and the step is the new last command |
| BrowserRuns.SoloStepAgrees | fs/keypad.js:30-48 | With a level from 1 to 255 or FULL a solo step keeps list and frame in agreement |
| BrowserRuns.MirrorAgreement | fs/keypad.js:65-155 | Over every run of AND lists and ranges with levels 1 to 255 or FULL, solo steps and releases, channelData lists exactly the non-zero channels of the firmware frame with their levels |
| BrowserRuns.FreshSessionAgrees | fs/keypad.js:1-8 | A fresh page agrees with a dark frame |
| SoloMode.ReleaseEndsSolo | fs/keypad.js:130-155 | In every session, after Rel the page is out of solo mode, its list and buffer are empty, "release" is the one new post, and all channels of the frame are 0 |
| SoloMode.SecondSoloEndsSolo | fs/keypad.js:17-28 | Solo pressed in solo mode does the same |
| SoloMode.FirstSoloBegins | fs/keypad.js:17-28 | Solo pressed outside solo mode posts nothing, changes neither list nor frame, and puts the last command into the buffer |
| SoloMode.SoloRepeatsCommand | fs/keypad.js:17-28 | After a command and Solo, Enter posts the same command once more |
| SoloMode.StepOutsideSolo | fs/keypad.js:30-31 | Outside solo mode plus and minus post nothing and change nothing |
| SoloMode.NoStepsOutsideSolo | fs/keypad.js:17-48 | A session that is out of solo mode stays so until Solo is pressed, and goes as if plus and minus were never pressed |
| SoloMode.StepWithoutCommand | fs/keypad.js:30-47 | Before any command plus and minus do nothing in solo mode either |
| SoloMode.ListedLevels | fs/keypad.js:65-94 | After a command every channel it names is listed under three digits with the level as typed, or FL for FULL and 255 |
| BrowserKeys.KeysType | fs/keypad.html:13-35 | Pressing the keys for any words with separators between them leaves the words with one blank between them |
| BrowserKeys.EnterIsKeyPresses | fs/keypad.js:50-63 | A command of the runs is entered by Clear, its keys, and Enter, or FULL once more |
| BrowserKeys.TwoCommandsTyped | fs/keypad.js:50-128 | Two commands typed one after the other are the two actions: the first leaves an empty buffer |
| BrowserClauses.SeveralAgreeExactly | fs/keypad.js:65-94 | For several clauses joined by AND the firmware gives all of them their meaning, parseBuffer reads the first, and list and frame agree if and only if the others changed no channel |
| BrowserClauses.SecondClauseIsNotListed | fs/keypad.js:65-94 | After "1 AT 5 AND 2 AT 6" channel 2 is lit and not listed |
| BrowserClauses.MixedAgreesExactly | fs/keypad.js:65-94 | For a list of channels and then a THRU in one selection the firmware takes all of them, the browser lists the range alone, and list and frame agree if and only if the frame is the one the range alone would give |
| SoloWalks.SoloWalk | fs/keypad.js:30-48 | After any solo steps that stay on 1 to 511, with any level: the channel reached has the level, every other channel visited is 0, all others are untouched; with levels 1 to 255 and FULL the list agrees |
| SoloWalks.SoloWalkFromCommand | fs/keypad.js:17-48 | The same from the typed command "x AT l", solo, and then the steps |
| BrowserRuns.EnterDelivers | fs/keypad.js:100-128 | A command arrives as its meaning at the firmware, and as the parsed buffer in the list |
| BrowserZero.ZeroLevelAgreesExactly | fs/keypad.js:85-94 | After level 0 the list agrees with the frame if and only if every selected channel was dark or was named with three digits |
| BrowserZero.FiveStaysListed | fs/keypad.js:85-94 | "5 AT 50" and then "5 AT 0": the list still has channel 5 |
| BrowserZero.SoloLevelAgreesExactly | fs/keypad.js:30-48 | After a solo step the list agrees with the frame if and only if the level is FULL or from 1 to 255; with level 0 it lists a dark channel |
| BrowserZero.SixListedDark | fs/keypad.js:30-48 | "5 AT 0" on a dark channel, solo, plus: channel 6 is listed as "000", and dark |
| Tasks.RunKeepsTaskInv | ProjectFiles/main.cpp:89-118 | In every interleaving, with commands that block on a full queue: the start code is 0, a copy under way agrees with its frame so far, the flag is up exactly during a copy, and otherwise the buffer is a whole frame |
| Tasks.FramesAreConserved | ProjectFiles/main.cpp:103-108 | In every interleaving, blocked senders included, the frames dequeued, queued and waiting are the zero frame and then the frames made, in order, none lost or repeated |
| Tasks.WholeWithoutWindowTicks | ProjectFiles/main.cpp:89-118 | For the code as it is: in every run in which dmx_loop does not tick between busy test and flag, with the transmitter free and another frame about to be copied, every finished transmission moved exactly the buffer it started from |
| Tasks.TickTearsExactly | ProjectFiles/main.cpp:109-113 | A tick of dmx_loop, in any state that such runs reach, has a continuation without further such ticks that tears a frame if and only if it is such a tick |
| Tasks.NeverTorn | ProjectFiles/main.cpp:109-116 | With dmx_loop off, or with test and flag in one step, there are no such ticks and no frame is torn |
| Tasks.SentAreDequeued | ProjectFiles/main.cpp:100-118 | With dmx_loop off the finished transmissions are the dequeued frames, whole, once each, in queue order, at most two behind |
| Tasks.StartsAreWhole | ProjectFiles/main.cpp:89-98 | In either mode a transmission starts from one whole dequeued frame, never from a half-copied one |
| Tasks.StartsFromLatest | ProjectFiles/main.cpp:89-98 | A transmission starts from the frame copied last |
| Progress.TickSendsExactly | ProjectFiles/main.cpp:93-96 | A tick of dmx_loop starts a transmission of the buffer if and only if the loop is on, DMA and FIFO have nothing left and the flag is down, wherever dmx_task stands |
| Progress.CommandBlocksExactly | ProjectFiles/main.cpp:184 | A command's frame goes into the queue if and only if fewer than five frames wait there, and blocks its sender otherwise |
| Progress.SenderWaitsForTask | ProjectFiles/main.cpp:184 | With five frames queued a blocked sender stays blocked, and once dmx_task has taken one its frame is the last in the queue |
| Progress.LatestReachesLine | ProjectFiles/main.cpp:89-118 | Progress: from every reachable state, in both modes, the threads can go on without further commands until nothing waits, dmx_task is back at the queue, and the last finished transmission shows the latest frame on the channels 1 to 511 |
| Tasks.WindowTears | ProjectFiles/main.cpp:109-113 | From between busy test and flag, for every split k, a run exists whose frame is k old bytes and the rest new |
| Tasks.FirstFrameTorn | ProjectFiles/main.cpp:103-113 | The first frame of all can be torn |
| Tasks.WholeIffAtomic | ProjectFiles/main.cpp:89-118 | All runs with dmx_loop on are whole if and only if nothing gets between busy test and flag |
| History.InterpretSame | ProjectFiles/main.cpp:126-185 | For any string, what lies outside the channels 1 to 511 does not influence them |
| History.ReleaseForgets | ProjectFiles/main.cpp:142-145 | What came before a release has no effect on anything after it |
| History.NonZeroAreCaptured | ProjectFiles/main.cpp:152-168 | After any strings whatever, every channel that is not 0 is captured |
| History.BufferIsFold | ProjectFiles/main.cpp:100-185 | Whenever the queue is drained the buffer equals, on channels 1 to 511, the fold of all commands, with their captured set; the start code is 0 in every reachable state |
| History.SentAreFolds | ProjectFiles/main.cpp:100-118 | With dmx_loop off and every command typed when the queue is drained, transmission i carries the fold of the first i commands |
| History.NextFrameExactly | ProjectFiles/main.cpp:132-134 | In any state of the tasks (frames queued, half-way through a copy) a channel of a command's frame comes out as if after all frames before if and only if the command names it or the buffer already shows its latest level |
| History.OverlapLosesExactly | ProjectFiles/main.cpp:132-134 | Of two commands in a row with no copy between, a channel comes out right if and only if the second names it or the first did not change it |
| History.SecondCommandForgetsFirst | ProjectFiles/main.cpp:132-134 | In a dark unit, "1 AT 5" and "2 AT 6" in a row leave channel 1 dark |
| Dns.Process | ProjectFiles/dnsserver/dnsserver.c:103-218 | For arbitrary bytes the walk ends, the reply ends by byte 287 of 300 and is the specified one, and an ignored datagram changes nothing |
| Dns.WriteAnswer | ProjectFiles/dnsserver/dnsserver.c:183-210 | Answer and header are written in place and leave id and question as they were |
| Dns.WalkOfName | ProjectFiles/dnsserver/dnsserver.c:154-170 | Over an encoded name the walk ends right behind it |
| Dns.DecodeOfEncode | ProjectFiles/dnsserver/dnsserver.c:154-170 | Decoding undoes encoding, wherever the name stands |
| Dns.AnsweredExactly | ProjectFiles/dnsserver/dnsserver.c:110-180 | A datagram with a complete name is answered if and only if it is a query with operation code 0 (its third byte is below 8, so recursion desired, truncation and authority do not matter), has a question, and the name has at most 255 octets; the question ends four bytes behind the name |
| Dns.ShortIsIgnored | ProjectFiles/dnsserver/dnsserver.c:110-113 | Less than a header is ignored |
| Dns.BadLabelIsIgnored | ProjectFiles/dnsserver/dnsserver.c:162-166 | A length byte above 63, wherever in the name, makes the datagram be ignored |
| Dns.BrokenNameIsAnswered | ProjectFiles/dnsserver/dnsserver.c:154-180 | A name that the datagram breaks off in its last label or behind it is answered all the same, as far as that label would reach |
| Dns.QueryIsAnswered | ProjectFiles/dnsserver/dnsserver.c:151-210 | Every well-formed query with a name of up to 255 octets and a third byte below 8 is answered, and parsing the reply gives its id, the flags response, authoritative, recursion available and no other, no error, its first question, no further records and one A/IN answer with 60 seconds to live whose pointer expands to the name asked for and whose data is the server's address |
| Eeprom.CacheSize | EEPROM/src/EEPROM.cpp:35-39 | begin settles on 4096 for 0 and for more than 4096, and else on the multiple of 256 from the size asked for on |
| Eeprom.EEPROMClass.Start | EEPROM/src/EEPROM.cpp:34-54 | begin loads the flash and clears the flag, reallocating only for another size |
| Eeprom.EEPROMClass.ReadByte | EEPROM/src/EEPROM.cpp:74-83 | A byte of the cache, or 0 outside of it |
| Eeprom.EEPROMClass.WriteByte | EEPROM/src/EEPROM.cpp:85-99 | One byte changes, and the flag rises only if it differs |
| Eeprom.EEPROMClass.Fetch | EEPROM/include/EEPROM.h:41-49 | get copies the range, or leaves its argument alone if it does not fit |
| Eeprom.EEPROMClass.Store | EEPROM/include/EEPROM.h:51-62 | put changes exactly the range, and only if it differs |
| Eeprom.EEPROMClass.Flush | EEPROM/src/EEPROM.cpp:101-124 | commit erases, programs and leaves the flag |
| Eeprom.EEPROMClass.Stop | EEPROM/src/EEPROM.cpp:56-72 | end commits and drops the cache |
| Eeprom.DoKeepsValid | EEPROM/src/EEPROM.cpp:34-124 | Every operation keeps the cache consistent: a clean one equals the flash |
| Eeprom.CleanCacheIsFlash | EEPROM/src/EEPROM.cpp:34-124 | After every run a clean cache equals the beginning of the flash, and so does one just committed |
| Eeprom.PutCommitBeginGet | EEPROM/src/EEPROM.cpp:34-124 | put, commit and begin make get return the value, and leave every disjoint range as it was cached |
| Eeprom.CommitErasesTheRest | EEPROM/src/EEPROM.cpp:114-120 | The flash behind the cached part survives a commit if and only if it was blank or nothing was dirty |
| Eeprom.BytesAreValues | EEPROM/src/EEPROM.cpp:74-99 | Reading and writing a byte is getting and putting a value of one byte; outside of the cache it reads as 0 and is not written |
| Eeprom.DirtyExactly | EEPROM/include/EEPROM.h:51-62 | A value that fits makes the cache dirty if it differs from what is there, and changes nothing at all if not |
| Eeprom.PutOutside | EEPROM/include/EEPROM.h:41-62 | A value that does not fit is neither put nor got |
| Eeprom.BeginIsClean | EEPROM/src/EEPROM.cpp:34-54 | After begin the cache is the beginning of the flash, and a commit has nothing to write |
| Eeprom.CommitReports | EEPROM/src/EEPROM.cpp:101-124 | commit fails if and only if there is no cache, leaves the cache as it is, and writes the flash only if the cache is dirty |
| Eeprom.EndSaves | EEPROM/src/EEPROM.cpp:56-72 | end leaves the cached bytes in the flash and no cache, and fails without one |
| Config.CalcCheckSum | ProjectFiles/main.cpp:47-68 | The additions in eight bits compute the sum of all fields modulo 256 |
| Config.TextsAreSummed | ProjectFiles/main.cpp:49-60 | Changing one character of any of the four texts moves the checksum by exactly the difference, modulo 256 |
| Config.NumbersAreSummed | ProjectFiles/main.cpp:61-66 | The same for the four lengths and the two flags |
| Config.CheckSumOfImage | ProjectFiles/main.cpp:47-68 | Over any 212 bytes taken as a record the checksum is the sum, modulo 256, of those bytes but 33-35, 69-71, 137-139, 205-207, 210 and 211: the upper three bytes of each length, itself and the padding |
| Config.ChangedByteIsNoticed | ProjectFiles/main.cpp:47-68 | One byte of a good record changed: the record is still good if and only if it is an upper byte of a length or the padding |
| Config.RecordLayout | ProjectFiles/main.cpp:32-44 | Where each field stands in the 212 bytes, lengths in little-endian order |
| Config.ImageRoundTrip | ProjectFiles/main.cpp:32-44 | The record is read back from its memory image |
| Config.DefaultIsChecked | ProjectFiles/main.cpp:32-44 | The checksum 111 written into the defaults is theirs |
| Config.ConfigStore.LoadConfig | ProjectFiles/main.cpp:71-78 | The stored record (the defaults when none can be read) is taken over if its checksum fits, and otherwise nothing changes |
| Config.ConfigStore.WriteConfig | ProjectFiles/main.cpp:192-202 | put and commit of the record leave the specified cache and flash |
| Config.BootIsChecked | ProjectFiles/main.cpp:269-273 | Whatever the flash holds, the configuration after power-on has a valid checksum |
| Config.BootTakesOverExactly | ProjectFiles/main.cpp:71-78 | The record in the flash is taken over at power-on if and only if its byte 210 is the sum of the covered bytes modulo 256, and the defaults are kept otherwise |
| Config.ChangedRecordIsRejected | ProjectFiles/main.cpp:71-78 | A record that is taken over and then has one covered byte, or the checksum, changed in the flash is replaced by the defaults at the next power-on; with another byte changed it is taken over with the change |
| Config.BootAfterSave | ProjectFiles/main.cpp:192-202 | After a save the next power-on loads the saved record if its checksum fits and the defaults otherwise |
| Config.GivingUpRestoresDefaults | ProjectFiles/main.cpp:241-244 | After the timeout path the next power-on rejects the saved record and keeps the defaults, whatever the flash held |

## Left out

- Wi-Fi bring-up, lwIP, pbufs and sockets, mongoose and the web pages, cookies, login, RSA, FreeRTOS internals: not part of this model. A datagram is a byte string and its length, and a POST is its key string.
- PIO and DMA register set-up, claiming and releasing of resources in `begin` and `end`, pin set-up: only entry offset, clock divider and shift direction remain.
- DmxReceive.RunRefines: without the RX FIFO; that PUSH does not stall with one is `DmxReceive.PushNeverStalls`.
- The waiting loop of `DmxInput::read`, the callback, and `DmxInput::end`. Words pushed between the end of a transfer and its interrupt are dropped, as `pio_sm_clear_fifos` does.
- DmxWaveform.FrameMeetsMinima: the minima (92 us break, 12 us mark after break, 44 us slot, two 4 us stop bits) are constants of the model, in cycles of 1 us.
- DmxDevices.DmxOutput.Write: takes the bytes of the universe by value; the DMA channel reading the shadow buffer while it changes is modelled in `Tasks`.
- DmxDevices.DmaHandler: the inputs are distinct objects, as one DMA channel belongs to one input; all interrupts are handled at one time.
- DhcpServer.DhcpServer.Process: option bytes behind a short datagram and behind the 308 option bytes are arbitrary, as the stack leaves them; the address of the unit is its four bytes; a datagram is truncated to the message structure before.
- DhcpServer.DhcpServer.Request: nothing keeps a client from holding several slots, so no uniqueness per client is claimed.
- DHCP pad options, NAK, RELEASE and DECLINE: the code does not treat them in any special way.
- KeyCommands.InterpreterRefinesMeaning: claims its meaning for channels 1 to 511. Frames here have 513 entries; in the firmware a frame of `processKeys` and of the queue has 512, so index 512 is outside of it, and what the buffer holds there is any byte (`TaskStep.behind`). THRU with nothing selected, numbers that an `int` cannot hold (C leaves open what `atoi` gives) and strings that are not commands have a step in the interpreter but no meaning.
- Firmware.Rfu.ProcessKeys: is not called while its thread is blocked; it reads the shadow buffer in one step.
- `setChannel`, `unasfeSetChannel`, the waiting `writeBuffer`, and pointers handed out by `getDataPtr`: not modelled.
- Tasks.WholeWithoutWindowTicks: the busy test and the send of `dmx_loop` are one step, since that thread has the higher priority on one core.
- History.BufferIsFold: needs every command to come when the queue is drained; what happens otherwise is `History.NextFrameExactly`.
- BrowserRuns.MirrorAgreement: commands are AND lists or one range with rising ends, in one clause; several clauses and selections that mix AND and THRU are read differently at the two ends, as `BrowserClauses` says. Posts arrive in order and without loss. The display is left out.
- SoloWalks.SoloWalk: each command of a step is interpreted before the next.
- Browser.CollectChannels: numbers are exact; JavaScript rounds those above 2^53.
- Dns.QueryIsAnswered: is about the first question; a server that sees several answers the first one alone. The type asked for is not looked at, as in the code.
- Eeprom.EEPROMClass.Store: a value is its memory image; `update`, `operator[]` and `getDataPtr` are not modelled, and allocation succeeds.
- Config.ImageRoundTrip: the padding byte at the end of the record is 0 and the two flags are the bytes stored.
- Config.GivingUpRestoresDefaults: reset and reboot are the next power-on; a power failure between erasing and programming is not modelled.
