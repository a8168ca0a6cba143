# A verified model of the rds95 encoder

rds95 turns programme data into the 26-bit protected blocks of the Radio Data System. This project models its
encoder, its link layer, its script modules and its charset compiler, and gives each of them a reference receiver:
a pure function written from what a receiver knows. The main results say that the receiver gets back what was set,
over whole runs, whatever setters and script hooks do in between.

`dafny verify dfyconfig.toml` checks everything. The modules follow the program:

* **Link layer.** `Gf2` is polynomial arithmetic over bit strings; `Checkword` is `add_checkwords` against division by
  the generator, and `BlockCode` the same blocks against the generator and offset words as EN 50067:1998 writes them, by
  their exponents (section 2.3 and annexes A and B); `DifferentialLink` is the differential step and the packing of
  `ipc_send_bits` (section 1.6); `Crc16` is the nibble-folded CRC-16 (RDS Forum SPB 490, section 2.2).
* **Group engines.** `RadioText`, `DoubleBuffer` with `ProgrammeNames` and `NameRuns`, `AlternativeFrequencies` and
  `ClockTime` are the segment machines; `Scheduler` is `get_rds_group` as a function of one programme's state,
  `SchedulerRuns`, `SlotRuns`, `ClockRuns` and `ScriptGroups` what holds over its runs, and `Encoder` the same programme
  as objects updated in place.
* **On air.** `RadioTextOnAir` and `EngineRuns` are the chain from a setter through scheduler, checkwords and channel to
  a listener; `NamesOnAir`, `TypeNameOnAir`, `LongNameOnAir` and `TuningOnAir` carry PS, PTYN, long PS, the frequency
  list and fast tuning through it.
* **Script modules.** `RftChunks`, `Rft` and `RftInstances` are file transfer, `RftReceiver` its receiver's side;
  `UecpFrame`, `UecpMessages`, `UecpDispatch` and `Uecp` are the UECP receiver, and `UecpEffects` says what each message
  does in terms of its own bytes; `CyclicBuffer`, `RadioTextRotation` and `UecpRadioText` its RadioText
  buffer, from the messages that load it to the groups on air; `Oda` is the table of open data applications; `AfOda` and
  `EnhancedRadioText` are two applications in it.
* **Charset.** `Charset` is the byte trie of `charset.py` and the switches it becomes in `convert_to_rdscharset`.
* **Shared.** `Rds` and `Text` are the words, bits and C strings of the encoder, `Octets` the bytes of the Lua modules,
  `Modulus` and `Lists` what several modules need of remainders and sequences.

Where the source updates something in place there is a class or a loop, proved against a function of the old state;
the lemmas then speak about that function. What goes on air, and what a message does, is also stated without the
model's own constants and encodings: receivers read bits at the positions the standards give, checkwords and checksums
are multiples of polynomials written by their exponents, and the fields a message changes are numbers and strings of its
bytes. Conventions used throughout:

* Characters and bytes are unsigned. The C code uses plain `char` in `crc ^= data[i]` and in the packings into words;
  where `char` is signed the statements about text and checksums hold for bytes below 0x80 only.
* Words of the link layer are bit strings, most significant bit first; group words are 16-bit vectors; the Lua modules
  work on numbers. Bit-fields have explicit ranges, and nothing is ever truncated by them except that
  `ptyn_state` and `ptyn_ab` are single bits and wrap, and that `streams` is taken modulo 8.
* Clocks, script hooks, script groups and the EON payload are parameters. A hook is a list of setter actions, run at
  its place inside the step.
* Frequencies and the steps of the MJD formula are real numbers, truncated where the source truncates; floating-point
  rounding is not modelled.
* Where the C code leaves an array, the model returns that as an outcome and says nothing of the memory behind it. The
  one read past an array, of a group sequence longer than its 32 stored codes, yields a parameter.
* A Lua error is an outcome that a function returns, never a precondition.

Results in which the code falls short of what it is meant to do, each stated with the exact condition under which it
does not:

* A burst inside one block can turn the offset word C into C' (`OffsetsConfusable`); only blocks A and B expose it.
* The checksum of a whole file (mode 0) covers it only below 64 KiB, because the length is narrowed to 16 bits
  (`RftInstances.WholeFileChecksum`, `Crc16.UncoveredFile`).
* The setters of PS, TPS, PTYN and RadioText convert into arrays of one more than N characters and tell the converter
  that size, so a string whose conversion has more than N codes writes its terminator one past the array
  (`SetterStaysInside`).  There is one code for each character of the charset (`CharsetTextStaysInside`), but up to one
  for each byte of any other: a PS of nine letters overruns, and so does one of three emoji (`NineCharacterPs`,
  `ThreeFacesPs`).  The conversion that scripts call has room (`ScriptConversionInside`).
* A string that ends in the middle of a character of the charset is read past its terminator (`ReadsPastEnd`);
  well-formed UTF-8 never is (`Utf8StaysInside`).
* The comments of `modules/rft.lua` list checksum modes 1 to 5; asked for by number they all become mode 1, which names
  every chunk rightly exactly up to 40960 bytes (`NumberedModeMisnames`).
* Without a crc argument checksums stay on, and carry the sum of whatever file was last read in mode 0, however long ago
  (`AbsentCrcIsStale`).
* The flag "a checksum has just gone out" outlives `stop`; the first group of a transfer is its checksum group exactly
  when the flag is clear (`FirstGroup`, `InterruptedStart`), and it can be set (`InterruptionHappens`).
* The eighteen bits of a file's size spill into the neighbouring fields from 256 KiB on (`IdWordRead`).
* The bound on a frequency list counts frequencies, not places, of which LF and MF frequencies take two each: the next
  frequency fits exactly if its places do, and otherwise overruns the list unless there are too many already
  (`NextFits`, `LongWaveOverruns`, `MixedListOverruns`).
* The setter of the number of streams checks the number it replaces, so 5, 6 and 7 are accepted, for which there is no
  channel state, and nothing is accepted after them (`StreamsStayInRange`).
* The comment on `register_oda` says that groups 10, 4 and 1 are free in version B only; the code refuses version B and
  takes version A, so that an application can be put on 4A, where receivers look for the clock (`RegistrationInverted`).
* The AF application lists a frequency only if it is a channel: an FM frequency between two is counted but left out, and
  any other leaves a 250 behind that turns the next code into a wrong channel (`AfOda.CycleTunes`, `MistunedList`).
* Block D of a fast tuning group, which should repeat block B, lacks TP and PTY; the two are equal exactly for a
  programme that is no traffic programme and has no type (`BlockDShort`).
* A group sequence of more than 31 codes is read past its array, where the zero slot that guarantees PS would be
  (`SequenceInstalled`).
* The handler of UECP message 0x16 goes on one byte too far, which matters exactly when another message follows it in
  its field (`AlignmentLost`, `MisreadPi`), selecting data set k and writing to data set k address different programmes
  (`SelectionOffByOne`), a message cut off after its DSN leaves the writing programme moved unless that data set starts
  with the programme on air (`CutOffWrite`, `CutOffBehind`), and removing an address leaves one of two equal neighbours
  behind (`RemovalComplete`).

## Model

| member | source | states |
|---|---|---|
| `Rds.WordRoundTrip` | src/rds.c:195-199 | the sixteen bits written for a word, read most significant first, are the word |
| `Gf2.LfsrDivides` | src/rds.c:192-200 | a shift register of any width, fed any message, holds a remainder: register and message equal quotient times generator plus register |
| `Gf2.RemZeroIffDivisible` | src/rds.h:5-10 | the receiver's remainder is zero exactly for multiples of the generator |
| `Gf2.RemainderUnique` | src/rds.h:5-10 | two divisions of one polynomial with short remainders have the same remainder |
| `Gf2.BurstDetected` | src/rds.h:5-10 | no nonzero burst as long as the generator's degree, at any position, is a multiple of it |
| `Checkword.RegisterRefines` | src/rds.c:192-200 | for a message of any length the low ten bits of the unmasked 16-bit register are m(x)·x^10 modulo the generator |
| `Checkword.WriteData` | src/rds.c:192-200 | the inner loop writes the data bits and leaves the remainder, touching nothing before |
| `Checkword.WriteCheckword` | src/rds.c:201 | writes remainder plus offset word, touching nothing before |
| `Checkword.AddBlock` | src/rds.c:189-202 | appends one protected block to the bits already written |
| `Checkword.AddCheckwords` | src/rds.c:184-203 | the array ends up as the four protected blocks, C' used exactly when the version flag is set; which polynomials protect them is stated by BlockOnAir |
| `BlockCode.HighestFirst` | src/rds.c:195-199 | the sixteen bits of a word go out in the order of the masks 0x8000 to 0x0001 |
| `BlockCode.OffsetIs` | src/rds.c:171-182 | the offset words are the polynomials with exponents 7 to 2 (A), 8 7 4 3 (B), 8 6 5 3 (C), 9 8 6 4 (C') and 8 7 5 4 2 (D) |
| `BlockCode.BlockOnAir` | src/rds.c:184-203 | for every group each emitted block is its data word and ten bits, and less its offset polynomial a multiple of x^10+x^8+x^7+x^5+x^4+x^3+1 |
| `Checkword.BlockSyndrome` | src/rds.c:189-202 | every block less its offset word is a multiple of the generator, so its syndrome is the offset word |
| `Checkword.GroupRoundTrip` | src/rds.c:184-203 | the receiver recovers all four words and the version flag of every consistent group |
| `Checkword.BlockBurstDetected` | src/rds.h:5-10 | a burst of at most ten bits in a block gives a syndrome other than its offset word |
| `Checkword.OffsetsConfusable` | src/rds.c:171-182 | one burst of ten bits turns every good block with C into a good block with C' |
| `Checkword.GroupBurstDetected` | src/rds.c:171-203 | a burst of at most ten bits anywhere in a group, across block boundaries too, makes the receiver refuse the group |
| `DifferentialLink.DiffRoundTrip` | src/ipc_client.c:72-77 | decoding undoes the differential step for every string and starting bit |
| `DifferentialLink.DecodeCarries` | src/ipc_client.c:72-78 | decoding piecewise with the last bit carried over is decoding the whole stream |
| `DifferentialLink.PolarityIrrelevant` | src/ipc_client.c:72-77 | from the second bit on the decoded data ignore an inverted channel and the bit carried in |
| `DifferentialLink.ChannelBurst` | src/ipc_client.c:72-77 | a channel burst of n bits decodes to a burst of at most n + 1 |
| `DifferentialLink.PackRoundTrip` | src/ipc_client.c:69-77 | unpacking the thirteen payload bytes gives the 104 bits |
| `DifferentialLink.PackedByte` | src/ipc_client.c:72-77 | byte k has bits 8k to 8k+7, the first of them highest |
| `DifferentialLink.EncodeAt` | src/ipc_client.c:74-75 | each channel bit is the one before it changed by the data bit |
| `DifferentialLink.IpcClient.SendBits` | src/ipc_client.c:69-78 | the packed bytes are the encoded bits, and the stream's last bit, and no other's, is stored |
| `DifferentialLink.RunRoundTrip` | src/ipc_client.c:63-83 | over any run on any interleaving of streams the receiver gets back every group with its version flag |
| `DifferentialLink.ChannelBurstDetected` | src/ipc_client.c:72-77 | a burst of at most nine channel bits inside a group makes the receiver refuse it |
| `DifferentialLink.StreamsStayInRange` | src/lua_api.c:127-131 | whatever numbers of streams are set, those sent have a channel bit each exactly if every number was at most 4 modulo 8 |
| `Crc16.ByteStepDivides` | src/lib.c:32-36 | the nibble folds are one step of long division, with the folded byte as quotient |
| `Crc16.ByteStepRefines` | src/lib.c:32-36 | one turn of the byte loop equals eight clocks of the bit-serial register |
| `Crc16.Crc16Ccitt` | src/lib.c:28-40 | the loop computes the bit-serial CRC (0x1021, preset and complemented with ones) of its first len bytes |
| `Crc16.ChecksumDivides` | src/lib.c:28-40 | message and checksum, with the first and the last sixteen bits inverted, are a multiple of x^16+x^12+x^5+1 |
| `Crc16.MessageBitAt` | src/lib.c:30-36 | bit j of byte k, highest first, is bit 8k+j of the message |
| `Crc16.ScriptCrc16` | src/lua_api.c:327-332 | scripts get the CRC of the string up to its length modulo 65536 |
| `Crc16.ScriptCoverage` | src/lua_api.c:327-332 | that is the whole string exactly below 65536 bytes |
| `Crc16.UncoveredFile` | src/lua_api.c:327-332 | all strings of 65536 bytes have checksum 0 |
| `Crc16.ResidueIffChecksum` | src/lib.c:28-40 | sixteen bits after a message leave the fixed residue exactly when they are its checksum |
| `Crc16.FixedResidue` | src/lib.c:28-40 | every message followed by its checksum leaves one and the same residue |
| `Crc16.BurstChangesResidue` | src/lib.c:28-40 | any burst of at most 16 bits in a framed message changes the residue |
| `Octets.ScriptCrc` | src/lua_api.c:327-332 | the number scripts see is the value of those sixteen bits |
| `Octets.OctetBits` | src/lib.c:30-32 | the bits of a byte are those of 128, 64 and so on down to 1 |
| `RadioText.CycleShowsText` | src/rds_setters.c:3-22 | the segments of a cycle read up to the carriage return are the text cut at CR, NUL or 64 characters, without trailing spaces |
| `RadioText.ShownIs` | src/rds_setters.c:8-11 | the text is the first line of the string, at most 64 characters up to a NUL or 0x0D, without the spaces it ends in |
| `RadioText.Transmitter.Set` | src/rds_setters.c:3-22 | stores the 64 characters and the segment count of the text, 16 when the trimmed text is full, and raises the flag |
| `RadioText.Transmitter.Store` | src/rds_setters.c:8-15 | the buffer becomes the trimmed text, a carriage return and spaces |
| `Text.CountSegments` | src/rds_setters.c:13-19 | the counting loop yields the length in fours, rounded up |
| `RadioText.Transmitter.TrimSpaces` | src/rds_setters.c:11 | the loop finds the length without trailing spaces |
| `RadioText.Transmitter.Refresh` | src/rds_groups.c:94-98 | a pending text is copied only while RadioText is enabled, and restarts the addresses |
| `RadioText.Transmitter.Advance` | src/rds_groups.c:108-112 | after the last segment the hook runs and the address returns to 0 |
| `RadioText.Transmitter.SendGroup` | src/rds_groups.c:93-113 | emits the current segment of the live text and moves to the next state |
| `RadioText.ActAllKeepsPos` | src/rds_groups.c:108-112 | what a hook does does not depend on the address being cleared after it instead of before |
| `RadioText.SendFollows` | src/rds_groups.c:93-113 | a group is the reference transmitter's current segment, and the engine still follows it, hooks included |
| `RadioText.RunFollows` | src/rds_groups.c:93-113 | every run equals the reference run, which knows only the latest text and an address |
| `RadioText.LatestTextOnAir` | src/rds_groups.c:93-113 | after a set in any state every later group of every run is a segment of the latest text, addresses restarting at 0 |
| `RadioText.RestOfCycle` | src/rds_groups.c:100-112 | the groups up to the end of a cycle carry the rest of the buffer in order, whatever toggles and switching lie between them |
| `RadioText.ReceiverReadsText` | src/rds_groups.c:93-113 | one cycle of groups after a set displays exactly the text, unless another is set meanwhile |
| `RadioText.RunBegins` | src/rds_groups.c:93-113 | what follows a cycle does not change it |
| `RadioText.SwitchesFollow` | src/lua_api.c:219-223 | after any actions the A/B flag has changed exactly for an odd number of toggles, and the last word on whether RadioText is on holds |
| `DoubleBuffer.NoTornText` | src/rds_groups.c:45-56 | each cycle shows one value, the one set last before its segment 0, whatever setters run meanwhile |
| `DoubleBuffer.Addresses` | src/rds_groups.c:72-76 | group i of every run has address (p + i) modulo the number of segments |
| `DoubleBuffer.WholeCycle` | src/rds_groups.c:45-77 | a cycle is complete and all of one value |
| `ProgrammeNames.ProgrammeService.SetPs` | src/rds_setters.c:24-30 | the pending name becomes the padded cut text, the name on air stays |
| `ProgrammeNames.ProgrammeService.SetTps` | src/rds_setters.c:32-43 | likewise for the traffic name, an empty text switching it off |
| `ProgrammeNames.ProgrammeService.Refresh` | src/rds_groups.c:46-56 | both names are taken over together, only before segment 0 |
| `ProgrammeNames.ProgrammeService.SendGroup` | src/rds_groups.c:45-77 | emits the segment of the name that TA selects and steps the address |
| `ProgrammeNames.ProgrammeTypeName.Set` | src/rds_setters.c:67-79 | stores the pending programme type name only |
| `ProgrammeNames.ProgrammeTypeName.SendGroup` | src/rds_groups.c:165-181 | emits its segment, the A/B flag flipping with the take-over; what a receiver reads off it is stated by PtynRoundTrip |
| `ProgrammeNames.LongProgrammeService.Set` | src/rds_setters.c:45-65 | stores the long name with its carriage return and changes the segment count at once |
| `ProgrammeNames.LongProgrammeService.SendGroup` | src/rds_groups.c:136-150 | emits its segment and wraps at the current count |
| `ProgrammeNames.NameStored` | src/rds_setters.c:28-29 | what is stored for PS is the first eight characters before a NUL, and 0x20 after them |
| `ProgrammeNames.OptionalStored` | src/rds_setters.c:36-42 | likewise for TPS and PTYN, an empty string storing eight zeros |
| `ProgrammeNames.LongNameStored` | src/rds_setters.c:53-64 | the whole segments stored for a long name, read up to 0x0D, are its first 32 characters before a NUL or 0x0D |
| `NameRuns.BuffersApart` | src/rds_groups.c:45-77 | a run of PS groups is what its two double buffers show, merged by the TA flag |
| `NameRuns.PsCycle` | src/rds_groups.c:45-77 | four groups from segment 0 on are segments 0 to 3 of the names latest at segment 0, TA choosing group by group |
| `NameRuns.SlotsShow` | src/rds_groups.c:45-77 | a cycle with no setter in it shows the names set before it |
| `NameRuns.PtynCycle` | src/rds_groups.c:165-181 | both groups of a cycle carry one name and one flag, which flips exactly once per update taken over |
| `NameRuns.PtynRunShown` | src/rds_groups.c:165-181 | over any run of cycles with setters anywhere, each cycle shows the name set last before it, and the A/B flag flips exactly between cycles with a set between them |
| `NameRuns.CutIntoCycles` | src/rds_groups.c:165-181 | every run of setters and slots is cut into such cycles, up to an unfinished last one |
| `NameRuns.LpsUntorn` | src/rds_groups.c:136-150 | no cycle mixes two long names, although a set may cut the running one short |
| `NameRuns.LpsCycle` | src/rds_groups.c:136-150 | a cycle with no setter in it shows the name set before it, segment by segment |
| `AlternativeFrequencies.CycleRoundTrip` | src/rds_groups.c:5-22 | the bytes of a cycle give a receiver the count and all codes, fillers dropped |
| `AlternativeFrequencies.CallFollowsCycle` | src/rds_groups.c:5-22 | each call sends the next two bytes of the cycle and the last one returns to its start |
| `AlternativeFrequencies.OneCallResynchronizes` | src/rds_groups.c:16-18 | after the list was replaced one call brings the position back into the cycle |
| `AlternativeFrequencies.SentFollowsCycle` | src/rds_groups.c:5-22 | any run of calls sends consecutive calls of the cycle |
| `AlternativeFrequencies.ReceiverRebuildsList` | src/rds_groups.c:5-22 | 1 + floor(N/2) calls from the start rebuild the list |
| `AlternativeFrequencies.CycleRepeats` | src/rds_groups.c:18 | after a cycle the same cycle follows |
| `AlternativeFrequencies.CycleHeard` | src/rds_groups.c:5-22 | wherever a replaced list is taken up, twice as many calls as a cycle has hold a whole cycle |
| `AlternativeFrequencies.CycleTunes` | src/lib.c:52-77 | a cycle begins with 224 and the number of frequencies, and a receiver that knows the channel rasters tunes from it to the channel at or below each, in order |
| `AlternativeFrequencies.AfList.Replace` | src/lua_api.c:107-116 | the list is exchanged, the position stays |
| `AlternativeFrequencies.Entries` | src/lib.c:52-77 | a frequency is listed as one FM code or as an LF/MF mark and code, and no code is zero or the filler |
| `AlternativeFrequencies.AfterAdd` | src/lib.c:52-77 | adding appends the codes of the frequency and counts it, exactly when it is added |
| `AlternativeFrequencies.NextFits` | src/lib.c:52-77 | after any list of in-band frequencies that fits, the next is added exactly if its places fit, overruns if they do not, and is refused if the number of frequencies alone is too large |
| `AlternativeFrequencies.MixedListOverruns` | src/lib.c:56-71 | twenty-three FM frequencies, a long-wave one and one more of FM overrun, though they are 25 |
| `AlternativeFrequencies.LongWaveOverruns` | src/lib.c:56-71 | twelve long-wave frequencies fill the array and the thirteenth overruns it, which the check on their number does not stop |
| `AlternativeFrequencies.AfList.Add` | src/lib.c:52-77 | in any state, one or two codes are appended, refused for their band or their number, or overrun the list |
| `AlternativeFrequencies.AfList.NextAf` | src/rds_groups.c:5-22 | yields the next two bytes and steps the position |
| `ClockTime.NextDayAddsOne` | src/rds_groups.c:123-124 | the formula adds exactly one from each day to the next under the every-fourth-year rule |
| `ClockTime.MjdCountsDays` | src/rds_groups.c:123-124 | n days after 1 March 1900 it gives 15079 + n |
| `ClockTime.GregorianStep` | src/rds_groups.c:123-124 | in the real calendar it steps by one exactly except over a 29 February that is missing, first in 2100 |
| `ClockTime.DateRoundTrip` | src/rds_groups.c:123-124 | the receiver's inverse of annex G gives back year, month and day |
| `ClockTime.TimeRoundTrip` | src/rds_groups.c:126-133 | blocks B, C and D give back day number, time and local offset, with TP and PTY added |
| `ClockTime.ClockReceived` | src/rds_groups.c:115-134 | a listener gets back the date, hour, minute and the offset rounded to half hours that the clock was given |
| `Scheduler.ClockHeader` | src/rds_groups.c:126-133 | a clock group has type 4A and leaves the TP and PTY bits clear |
| `Scheduler.BuiltHeader` | src/rds.c:29-57 | every group the encoder builds itself has its own type and version and clear TP and PTY bits |
| `Scheduler.BuiltVersion` | src/rds.c:23-57 | the version flag of every built group is bit 11 of its block B |
| `SchedulerRuns.StepHeader` | src/rds.c:87-169 | in every state a group's version flag agrees with its blocks, version B repeats PI, and type, version, TP and PTY decode |
| `SchedulerRuns.RunConsistent` | src/rds.c:87-169 | over any run every group is one the receiver can decode |
| `SchedulerRuns.Remembered` | src/rds.c:158-168 | the group remembered for the other streams is the one sent |
| `SchedulerRuns.ClockHeard` | src/rds_groups.c:115-134 | so does every clock group of every call, completed with TP and PTY |
| `SchedulerRuns.TunnelRepeats` | src/rds.c:126-132 | an idle RDS2 stream repeats the last stream-0 group bit for bit, whatever setters and RDS2 calls ran in between, while the settings are those it was completed with |
| `ClockRuns.HooksOncePerChange` | src/rds.c:99-112 | in every run the tick hook runs exactly at the calls whose second differs from that of the call before, and the minute hook exactly at the stream-0 calls whose minute differs from that of the stream-0 call before |
| `ClockRuns.ClockAtEveryChange` | src/rds.c:104-112 | in every run a stream-0 group is a clock group only where the minute is new; while clock time stays on exactly there, while it stays off never |
| `ClockRuns.OneClockAMinute` | src/rds.c:104-112 | so of consecutive stream-0 groups of one minute at most the first is a clock group |
| `ScriptGroups.ScriptsSent` | src/rds.c:135-162 | a waiting custom group goes out before any slot, once, with its blocks, PI, TP and PTY; a script group has its blocks; and block A of every stream-0 group is PI |
| `ScriptGroups.Rds2Sent` | src/rds.c:120-156 | an RDS2 call sends the waiting group or the script's, completed only if its block A is zero |
| `SchedulerRuns.StepMoves` | src/rds.c:104-148 | clock, custom and RDS2 groups use up no slot; a slot's code is the next of the sequence; code 0 is always PS |
| `SlotRuns.SequenceInstalled` | src/rds_setters.c:81-87 | installing any number n of codes makes the slots those codes and a zero exactly when n is at most 31 |
| `SlotRuns.RunFollowsSequence` | src/rds.c:137-148 | in every run the slots go through the n codes and the stored byte after them, over and over |
| `SlotRuns.StepIndex` | src/rds.c:137-146 | after any slot the index is at most one past the byte behind the codes, whatever was installed before |
| `SlotRuns.RunKeepsIndex` | src/rds.c:137-146 | and it stays so over every run until another sequence is installed |
| `SlotRuns.PsInEveryPeriod` | src/rds.c:137-148 | in every run of the encoder, any n + 1 consecutive slotted groups hold one that the PS builder made |
| `SlotRuns.SlotServed` | src/rds.c:23-85 | over the whole call, a slot sends the group of its code exactly when that has something to send, and every other code yields a script group or, without one, PS |
| `SlotRuns.EccAlternates` | src/rds.c:33-37 | in every run slow labelling group i carries the slow labelling code or ECC by turns, the code first unless ECC is due, with the linkage bit; without a code always ECC |
| `Encoder.Programme.SetSequence` | src/rds_setters.c:81-87 | for any codes, the first 32 and zeros after them are stored, and the length modulo 256 |
| `Encoder.StoreCodes` | src/rds_setters.c:85-86 | the loop leaves exactly the codes, then zeros |
| `Encoder.Programme.PsGroup` | src/rds_groups.c:45-77 | with AF codes version A and the next two bytes, without them version B |
| `Encoder.Programme.FastTuning` | src/rds_groups.c:79-91 | a version B group whose address counts modulo 4 |
| `Encoder.Programme.RtGroup` | src/rds_groups.c:93-113 | only the RadioText part of the programme changes |
| `Encoder.Programme.SequenceGroup` | src/rds.c:23-57 | each code runs its builder, and what has nothing to send becomes a script group or PS |
| `Encoder.Programme.NextCode` | src/rds.c:137-146 | the code at the index, which starts over past the length; an index past the stored codes reads the byte that happens to be there |
| `Encoder.Programme.TakeSlot` | src/rds.c:137-168 | one scheduled slot, completed and remembered |
| `Encoder.Programme.SendClock` | src/rds.c:108-111 | the clock group, completed and remembered |
| `Encoder.Programme.TakeCustom` | src/rds_groups.c:236-247 | a custom group is sent once and its buffer cleared |
| `Encoder.Programme.Stream0` | src/rds.c:104-168 | minute, clock, hook, custom group and slot in the program's order; how often the minute counts as new is stated by HooksOncePerChange |
| `Encoder.Programme.Rds2Stream` | src/rds.c:120-156 | custom, script or repeated group; only tunnelled ones are completed |
| `Encoder.Programme.GetGroup` | src/rds.c:87-169 | the objects do exactly the step that the theorems on runs speak about, and stay a valid programme |
| `Encoder.SendGroup` | src/rds.c:205-209 | a group becomes the packet of its stream and the channel's next state |
| `Encoder.SendBits` | src/ipc_client.c:63-83 | drawing, protecting and packing compose, on objects, to one step of the run and of the channel |
| `Encoder.StartValid` | src/rds.c:211-250 | the state the program starts in, with group sequence "0" of length 0, satisfies the invariant of all theorems on runs |
| `Encoder.StartSends` | src/rds.c:211-250 | the first group after start-up is FFFF 0C00 FFFF 2A20 with version B: type 0B, TP on, PI twice, and the first two characters of "* RDS * " |
| `Encoder.StartSendsClock` | src/rds.c:239 | if a minute begins first, the first group is the clock |
| `RadioTextOnAir.SegmentRoundTrip` | src/rds_groups.c:100-106 | a listener reads the packed segment with TP and PTY added |
| `RadioTextOnAir.StepSendsRt` | src/rds.c:38-40 | a call sends an RT group exactly when it moves the RadioText engine, and then its current segment |
| `RadioTextOnAir.StepRecognizable` | src/rds.c:87-169 | on stream 0 a group of the encoder's own reads as RadioText exactly if it is an RT group |
| `RadioTextOnAir.RunOnRt` | src/rds.c:87-169 | the RT groups of any run of the encoder are a run of the RadioText engine |
| `RadioTextOnAir.ChannelDelivers` | src/ipc_client.c:63-83 | whatever a run transmits, the listener hears its RT groups |
| `RadioTextOnAir.TextReachesListener` | src/rds.c:205-209 | from a set in any state, through scheduler, checkwords and channel, a listener hears the latest text from segment 0 on |
| `RadioTextOnAir.ListenerDisplays` | src/rds.c:205-209 | after the first cycle the listener displays exactly the text that was set, whatever toggles, switching and other setters ran in it |
| `EngineRuns.RunFollows` | src/rds.c:87-169 | over any run of the encoder the groups of one builder are those of its engine alone, under the setters and hooks of the run |
| `EngineRuns.EngineReachesListener` | src/rds.c:205-209 | through scheduler, checkwords and channel a listener reads exactly what the engine sends |
| `NamesOnAir.PsRoundTrip` | src/rds_groups.c:58-70 | a listener reads a completed PS group as its address, its two characters, TA, and dynamic PTY in segment 0, with or without AF |
| `NamesOnAir.RunOnPs` | src/rds.c:87-169 | the PS groups of any run of the encoder are those of the two double buffers under the setters and hooks of the run |
| `NamesOnAir.PsReachesListener` | src/rds.c:205-209 | through scheduler, checkwords and channel, a listener hears exactly those, and the traffic announcements in force |
| `NamesOnAir.ListenerShowsName` | src/rds.c:205-209 | the cycle after a PS was set shows it, and TPS on the groups of a traffic announcement |
| `NamesOnAir.CycleIsName` | src/rds_groups.c:57-76 | the four segments in order are the first eight characters of the string set, or during an announcement of the TPS if there is one |
| `TypeNameOnAir.PtynRoundTrip` | src/rds_groups.c:172-177 | a listener reads a completed PTYN group as its address, its A/B flag and its four characters in order |
| `TypeNameOnAir.PtynReachesListener` | src/rds_groups.c:165-181 | over any run of the encoder a listener decodes in each cycle the name set last before it, under a flag that flips exactly if one was set since the cycle before began |
| `TypeNameOnAir.CycleIsTypeName` | src/rds_setters.c:67-79 | the two segments put together are the first eight characters of that string |
| `LongNameOnAir.LpsRoundTrip` | src/rds_groups.c:142-146 | a listener reads a completed long PS group as its address and its four characters in order |
| `LongNameOnAir.LpsReachesListener` | src/rds_groups.c:136-150 | over any run of the encoder a listener decodes the segments of the long names |
| `LongNameOnAir.ListenerShowsLongName` | src/rds_setters.c:45-65 | one cycle after a long name was set the listener has exactly that name, up to a NUL, a carriage return or 32 characters |
| `TuningOnAir.AfIsRead` | src/rds_groups.c:62-67 | block C of a PS group reads as the next two bytes of the frequency list in version A and as PI in version B |
| `TuningOnAir.ListCycles` | src/rds_groups.c:5-22 | while a list is kept the PS groups carry its cycle, wherever in it they begin |
| `TuningOnAir.FrequenciesReachListener` | src/lua_api.c:88-116 | after a list was set in any state of the encoder, a listener that hears two cycles' worth of PS groups hears a whole cycle, which tells the number of frequencies and tunes it to the channel of each |
| `TuningOnAir.TuningRoundTrip` | src/rds_groups.c:79-91 | a listener reads a fast tuning group as its segment, TA, dynamic PTY in segment 0 and PI, with block D block B before TP and PTY |
| `TuningOnAir.TuningReachesListener` | src/rds_groups.c:79-91 | over any run a listener hears the four segments in turn, each with the settings in force |
| `TuningOnAir.BlockDShort` | src/rds_groups.c:87 | block D equals block B exactly without TP and with PTY 0 |
| `RftChunks.ChunkSumAt` | modules/rft.lua:154-160 | the k-th pair of checksum bytes is the checksum of exactly the k-th chunk |
| `RftChunks.ChunksTile` | modules/rft.lua:155-157 | the chunks cover the file without gap or overlap |
| `RftChunks.ChunkData` | modules/rft.lua:154-160 | the loop yields the checksums of all chunks in order |
| `Rft.AutomaticModeFits` | modules/rft.lua:144-147 | in automatic mode the nine-bit chunk address suffices exactly up to 163840 bytes |
| `Rft.NumberedModeFits` | modules/rft.lua:148-150 | modes asked for by number become mode 1, whose chunk address suffices exactly up to 40960 bytes |
| `Rft.ReadData` | modules/rft.lua:93-99 | a data group reads back as toggle, address modulo 2^15 and five bytes |
| `Rft.CycleFollows` | modules/rft.lua:66-108 | from any segment the calls to the end of the cycle emit each remaining address once, with the checksums due |
| `Rft.CycleDeliversFile` | modules/rft.lua:66-108 | one cycle: all addresses in order, exactly one checksum group before each divisible by 16 and none elsewhere, and the file itself |
| `Rft.NothingAfterStop` | modules/rft.lua:46-69 | after a stop no call emits anything |
| `Rft.FirstGroup` | modules/rft.lua:73-91 | with checksums on, the first group of a cycle is the checksum group exactly when none has just gone out |
| `Rft.InterruptedStart` | modules/rft.lua:73-108 | with the flag left set by an interrupted transfer, a cycle is the usual one without its first group, for files of any size |
| `Rft.ChunksNamed` | modules/rft.lua:73-90 | the checksum groups that any run emits name their own chunks and carry their checksums exactly when there are at most 512 chunks or the run does not come to the 513th |
| `Rft.ChunkMisnamed` | modules/rft.lua:73-76 | past that the group for chunk 512 names chunk 0 |
| `Rft.ChecksInTurn` | modules/rft.lua:73-90 | the checksum groups of any run over any number of cycles are the chunks in turn |
| `Rft.ChunkInTurn` | modules/rft.lua:75-88 | checksum group j of a run is for chunk (k + j) mod K |
| `RftInstances.RftInstance.Handler` | modules/rft.lua:66-108 | the closure does one step and returns its words |
| `RftInstances.RftInstance.Stop` | modules/rft.lua:46-57 | the transfer is cleared, the flag kept |
| `RftInstances.RftInstance.LoadFile` | modules/rft.lua:122-135 | a new application id stops the old transfer; the same file id flips the toggle and counts the version modulo 8 |
| `RftInstances.RftInstance.LoadSums` | modules/rft.lua:137-161 | mode, flag and checksums are those the crc argument asks for; which bytes they cover is stated by AutomaticChecks and NumberedChecks |
| `RftInstances.RftInstance.SendFile` | modules/rft.lua:119-170 | which call starts a transfer and which ends in an error, and the state and data word either leaves |
| `RftInstances.FreshTransfer` | modules/rft.lua:119-170 | a fresh transfer of 1 to 163840 bytes with any crc argument, or none, meets the conditions of the cycle theorems |
| `RftInstances.FileDelivered` | modules/rft.lua:66-170 | from sendFile on, one cycle of such a transfer delivers the file with its addresses and checksum groups in place, and nothing follows a file sent once |
| `RftInstances.InterruptionHappens` | modules/rft.lua:46-91 | a second file sent after one group of a first starts without its checksum group |
| `RftInstances.IdWordRead` | modules/rft.lua:163-168 | a receiver reads a file's size from the data word exactly below 256 KiB, and then its id, version and checksum flag too |
| `RftInstances.NumberedModeMisnames` | modules/rft.lua:148-161 | with a numbered mode all groups of the first cycle name their chunks exactly up to 40960 bytes; past that, the group for chunk 512 carries its checksum under address 0 |
| `RftInstances.SmallFileNames` | modules/rft.lua:137-161 | up to 40960 bytes all groups of every run do, in every mode |
| `RftInstances.AutomaticModeNames` | modules/rft.lua:144-147 | in automatic mode group j of every run names chunk j modulo their number and carries its checksum |
| `RftReceiver.AutomaticChecks` | modules/rft.lua:144-160 | files of up to 40960, 81920 and 163840 bytes are checked in modes 1, 2 and 3, and group j of every run carries the checksum of the file bytes under the 16, 32 or 64 segments of chunk j modulo their number |
| `RftReceiver.NumberedChecks` | modules/rft.lua:148-160 | up to 40960 bytes a numbered mode does so in mode 1, with chunks of 16 segments |
| `RftReceiver.ToggleTells` | modules/rft.lua:132-135 | the toggle of every data group after sendFile differs from the one before exactly if the file id is the same |
| `RftReceiver.SendEnds` | modules/rft.lua:119-169 | sendFile fails without a file, with more than 1310715 bytes, and for application 0 unless registered for it already; otherwise it says whether it interrupted a transfer |
| `RftInstances.WholeFileMode` | modules/rft.lua:116-143 | in mode 0 every checksum group of every run carries the checksum of the file |
| `RftInstances.AbsentCrcIsStale` | modules/rft.lua:137-161 | after any history, without a crc argument every checksum group carries the checksum of the file last read in mode 0 |
| `RftInstances.WholeFileChecksum` | modules/rft.lua:141-143 | the mode 0 checksum is that of the whole file exactly below 65536 bytes |
| `UecpFrame.UndoByteStuff` | modules/uecp.lua:340-356 | the loop undoes the stuffing or ends in one of its two errors |
| `UecpFrame.StuffRoundTrip` | modules/uecp.lua:340-356 | undoing the stuffing gives back every byte string |
| `UecpFrame.StuffedIsClean` | modules/uecp.lua:388-392 | a stuffed string holds neither the start nor the stop byte |
| `UecpFrame.UnstuffRoundTrip` | modules/uecp.lua:340-356 | a string without start and stop bytes that can be undone is the stuffing of the result |
| `UecpFrame.CheckAddress` | modules/uecp.lua:361-385 | accepted exactly if each address is zero or listed |
| `UecpFrame.ParseFrame` | modules/uecp.lua:388-417 | every packet gets its verdict, errors included |
| `UecpFrame.CrcDecides` | modules/uecp.lua:410-417 | an addressed frame is accepted with its right checksum and refused with any other |
| `UecpFrame.FrameDelivers` | modules/uecp.lua:388-417 | a well-made frame is accepted with exactly its message field, or is not addressed |
| `UecpFrame.FrameBytes` | modules/uecp.lua:340-356 | between 0xFE and 0xFF the bytes 0xFD, 0xFE and 0xFF are written as 0xFD and 0, 1 and 2 |
| `UecpFrame.BurstNeverAccepted` | modules/uecp.lua:388-417 | no packet is accepted that unstuffs to a frame hit by a burst of at most 16 bits, its length byte intact |
| `UecpMessages.MessageRead` | modules/uecp.lua:53-337 | whatever follows it, a message is read as what it means and the handler goes on just past it, or one byte further after a group sequence |
| `UecpMessages.ReadManufacturer` | modules/uecp.lua:329-337 | although the designation may be looked up beyond a short message, what follows never matters |
| `UecpDispatch.OneMessage` | modules/uecp.lua:420-430 | one turn of the loop carries out the first message and restores the writing programme |
| `UecpEffects.PiEffect` | modules/uecp.lua:53-64 | 0x01: PI of every selected programme is 256 times the first byte plus the second |
| `UecpEffects.DecoderEffect` | modules/uecp.lua:90-99 | 0x04: dynamic PTY is bit 3 of the byte |
| `UecpEffects.TrafficEffect` | modules/uecp.lua:100-110 | 0x03: TA is on exactly for an odd byte, TP for an odd half of it |
| `UecpEffects.PtyEffect` | modules/uecp.lua:111-120 | 0x07: PTY is the byte |
| `UecpEffects.ClockEffect` | modules/uecp.lua:278-285 | 0x19: clock time of all programmes is on unless the byte is 0 |
| `UecpEffects.LabellingEffect` | modules/uecp.lua:205-221 | 0x1A: variant 0 sets the twelve-bit ECC field, the others change nothing |
| `UecpEffects.PsEffect` | modules/uecp.lua:65-74 | 0x02: PS is the eight bytes |
| `UecpEffects.PtynEffect` | modules/uecp.lua:121-130 | 0x3E: PTYN is the eight bytes |
| `UecpEffects.LongPsEffect` | modules/uecp.lua:75-89 | 0x21: long PS is the text up to its first 0x0D |
| `UecpEffects.TextOffEffect` | modules/uecp.lua:137-160 | 0x0A without text: RadioText of the selected programmes goes off and the buffer is emptied |
| `UecpEffects.TextEffect` | modules/uecp.lua:166-176 | 0x0A for buffer 0: the text is shown on the selected programmes, A/B toggles exactly for an odd configuration, and the buffer holds this entry alone |
| `UecpEffects.TextAppended` | modules/uecp.lua:177-181 | 0x0A for buffer 2: the text joins the end of the buffer; other buffers change nothing |
| `UecpEffects.FreeEffectNow` | modules/uecp.lua:242-254 | 0x24 for buffer 0: the three words wait on the programme written to, or the field ends in an error if one waits there |
| `UecpEffects.FreeEffectLater` | modules/uecp.lua:255-261 | 0x24 for buffers 2 and 3: the words are kept, or all that are kept forgotten; buffer 1 changes nothing |
| `UecpEffects.SequenceEffect` | modules/uecp.lua:286-295 | 0x16: the group sequence is the codes, and one byte behind them is skipped |
| `UecpEffects.SiteEffect` | modules/uecp.lua:296-309 | 0x23: site addresses are removed, added or cleared, and any other control changes nothing |
| `UecpEffects.EncoderEffect` | modules/uecp.lua:310-321 | 0x27: likewise encoder addresses |
| `UecpEffects.SelectionEffect` | modules/uecp.lua:322-328 | 0x1C: programme k, at most 2, comes on air and is written to; both traffic announcements end exactly if that is a change |
| `UecpEffects.ManufacturerEffect` | modules/uecp.lua:329-337 | 0x2D: data of more than two bytes beginning "95" go on without those two |
| `UecpEffects.PassedOverEffect` | modules/uecp.lua:183-227 | 0x13, 0x14 and 0x2E are passed over as a whole and change nothing |
| `UecpEffects.OpenDataEffect` | modules/uecp.lua:264-274 | 0x40 likewise |
| `UecpDispatch.FieldDispatched` | modules/uecp.lua:419-430 | such a field runs each handler once, in order, at its own first byte, and then goes on with what follows |
| `UecpDispatch.FieldMeans` | modules/uecp.lua:419-430 | a field of messages in which only the last may be a group sequence does what its messages mean, and ends early only at a message that is itself an error |
| `UecpDispatch.AlignmentLost` | modules/uecp.lua:286-295 | after a group sequence the next handler is looked up one byte too far, and so on the messages exactly when none follows |
| `UecpDispatch.MisreadPi` | modules/uecp.lua:286-295 | a PI message behind an empty group sequence ends in an unknown element code, though the field means no error |
| `UecpDispatch.WritingRestored` | modules/uecp.lua:428 | for every field, unless a handler raised an error, writing and output programme agree afterwards |
| `UecpDispatch.CutOffWrite` | modules/uecp.lua:30-50 | for every field, writing ends away from the programme on air exactly when a handler broke off while writing to a data set that does not start there, and then on the first programme of that data set |
| `UecpDispatch.CutOffBehind` | modules/uecp.lua:53-120 | PI, TA/TP, PTYI and PTY do so cut off anywhere behind the DSN and behind any messages, and write nothing |
| `UecpDispatch.SparedUnchanged` | modules/uecp.lua:30-50 | a programme that no message of a field selects is unchanged by it |
| `UecpDispatch.SelectionOffByOne` | modules/uecp.lua:322-328 | selecting and writing the same data set meet exactly when both are clamped to the last programme |
| `UecpDispatch.RemovalComplete` | modules/uecp.lua:302-305 | removing an address keeps the others in order and is complete exactly when no two of it are adjacent |
| `Uecp.MessagesReceived` | modules/uecp.lua:388-431 | a packet of such a field does, from frame to effect, exactly what its messages mean |
| `Uecp.UecpModule.SetWritingProgram` | src/lua_api.c:168-175 | the number is clamped to the programmes there are |
| `Uecp.UecpModule.DsnHelper` | modules/uecp.lua:30-50 | the loops change exactly the programmes the DSN selects; what a write does to each is stated message by message in UecpEffects |
| `Uecp.UecpModule.WriteOthers` | modules/uecp.lua:32-40 | every programme but the one being written is changed, once |
| `Uecp.UecpModule.WriteAll` | modules/uecp.lua:41-45 | every programme is changed, once |
| `Uecp.UecpModule.RemoveAddress` | modules/uecp.lua:303-305 | the loop over the list it shortens steps over the entry that moves into each gap |
| `Uecp.UecpModule.SelectProgram` | src/lua_api.c:149-161 | the output programme changes with both traffic announcements cleared |
| `Uecp.UecpModule.PutCustomGroup` | src/lua_api.c:182-189 | a full buffer is an error and stays as it is |
| `Uecp.UecpModule.HandleMessage` | modules/uecp.lua:420-430 | one turn of the loop leaves the rest of the field to do the rest of the work |
| `Uecp.UecpModule.DispatchAll` | modules/uecp.lua:419-430 | the loop ends and has the effect of the whole field |
| `Uecp.UecpModule.ParseUecp` | modules/uecp.lua:388-431 | a refused packet changes nothing, an accepted one has the effect of its message field |
| `CyclicBuffer.RestOfCycle` | modules/uecp.lua:11-26 | up to the end of a cycle text and flag stay, and there the hook decides |
| `CyclicBuffer.EntryShown` | modules/uecp.lua:15-22 | an entry is on air for exactly its remaining cycles, at least one, and then its successor is selected |
| `CyclicBuffer.EntriesInTurn` | modules/uecp.lua:20-25 | k selections are k entries in cyclic order, each for max(1, number_tx) complete cycles |
| `CyclicBuffer.NextIsCyclic` | modules/uecp.lua:20 | entry i is followed by entry i + 1 modulo their number |
| `CyclicBuffer.AnyRun` | modules/uecp.lua:11-26 | every run of any length is the beginning of such a rotation |
| `CyclicBuffer.FromAnyMoment` | modules/uecp.lua:11-26 | from the middle of any cycle, whatever changed the buffer before, what is on air is finished and the rotation goes on from the next entry |
| `RadioTextRotation.RtBuffer.RtTransmission` | modules/uecp.lua:11-26 | the hook's new state and what it does to the encoder |
| `RadioTextRotation.OnAirShown` | src/rds_groups.c:93-113 | the encoder with the hook installed puts on air what the buffer shows in the abstract |
| `RadioTextRotation.BufferRotates` | modules/uecp.lua:166-179 | a buffer loaded in any state of the encoder rotates for ever, text and A/B changing only between cycles |
| `RadioTextRotation.RotatesFromAnyMoment` | modules/uecp.lua:11-26 | the same of the encoder itself, in any state that shows a buffer of two entries or more |
| `UecpRadioText.LoadMeans` | modules/uecp.lua:166-179 | a field that loads a buffer means that buffer, with its first entry shown on the programme on air |
| `UecpRadioText.LoadedBufferRotates` | modules/uecp.lua:166-179 | from the message field to the air: the programme then rotates through exactly those entries for ever |
| `Oda.FindsFront` | modules/oda.lua:74-89 | the search loop finds the front of the queue |
| `Oda.QueueHoldsLive` | modules/oda.lua:71-92 | the queue holds exactly the live slots, each once |
| `Oda.AidServesQueue` | modules/oda.lua:71-92 | an AID call takes the front of the queue and puts it back at the end unless temporary, and yields nothing only when nothing is live |
| `Oda.OneRound` | modules/oda.lua:71-92 | k calls with k live entries announce each exactly once in cyclic order, and only the temporary ones are gone |
| `Oda.DeadNeverServed` | modules/oda.lua:77 | what is not registered is never announced |
| `Oda.TemporaryServedOnce` | modules/oda.lua:81 | a temporary entry is announced exactly once, however many calls follow |
| `Oda.StepKeepsName` | modules/oda.lua:23-69 | an id keeps its meaning through an event exactly unless that unregisters it or announces it as a temporary entry |
| `Oda.NamesAreStable` | modules/oda.lua:23-69 | so through any run without such an event; announcing other entries ends nothing |
| `Oda.NewNameIsFree` | modules/oda.lua:26-34 | a new id was free, the lowest of those, names its entry at once and moves no other |
| `Oda.SettersTell` | modules/oda.lua:51-69 | a data word that was set is announced in block C, and a handler that was set is asked |
| `Oda.AnnouncedTypeRead` | modules/oda.lua:78-84 | a 3A group reads back group type and version from block B, the message from block C and the AID from block D |
| `Oda.RegistrationInverted` | modules/oda.lua:15-25 | code and comment agree on which types are free exactly outside groups 10, 4 and 1, where the code takes version A and refuses B |
| `Oda.DataServesQueue` | modules/oda.lua:95-116 | a data call asks those in line one after another, sends what the first to answer yields, and puts it at the end of the line behind those that did not |
| `Oda.DataTypeRead` | modules/oda.lua:105-107 | a data group has the registered type, its handler's five free bits and its handler's blocks C and D |
| `Oda.OdaTable.RegisterOda` | modules/oda.lua:23-35 | the first hole or the end is taken, and a reserved group is refused |
| `Oda.OdaTable.UnregisterOda` | modules/oda.lua:39-45 | the slot becomes a hole, and an unknown id is refused |
| `Oda.OdaTable.SetOdaIdData` | modules/oda.lua:51-54 | only the data word of a known id changes |
| `Oda.OdaTable.SetOdaHandler` | modules/oda.lua:65-69 | only the handler of a known id changes, and 3A entries refuse one |
| `Oda.OdaTable.GetAid` | modules/oda.lua:71-92 | the loop serves the queue, and after a full turn in vain the pointer is where it was |
| `Oda.OdaTable.GetData` | modules/oda.lua:95-116 | the first permanent entry from the pointer on whose handler answers is sent |
| `Oda.OdaTable.GroupHandler` | modules/oda.lua:118-125 | the pointer is never out of range, so its repair is never needed |
| `AfOda.PackedRoundTrip` | modules/af.lua:51-57 | four nine-bit codes are read back from blocks B, C and D |
| `AfOda.CodesOf` | modules/af.lua:14-28 | the codes of a frequency are never zero or the filler |
| `AfOda.AfOda.ProcessAfList` | modules/af.lua:79-90 | the codes of all frequencies in order and the position at the start, or an error exactly for a frequency in no band |
| `AfOda.AfOda.NextGroup` | modules/af.lua:30-58 | the filling loop sends group j of the cycle and moves to the next |
| `AfOda.RestOfCycle` | modules/af.lua:30-58 | from any group on, the rest of the cycle is sent |
| `AfOda.CycleRebuildsList` | modules/af.lua:30-58 | ceil((N+1)/4) groups rebuild the count and all N codes, fillers only at the end |
| `AfOda.SetListReceived` | modules/af.lua:30-90 | so a receiver rebuilds the codes of any frequencies that were set |
| `AfOda.CycleTunes` | modules/af.lua:12-58 | a cycle begins with 224 and the length, at most 25, and tunes a receiver to exactly the frequencies that were set if and only if all are channels |
| `AfOda.MistunedList` | modules/af.lua:20-26 | 154 kHz and 98.1 MHz tune it to 1341 kHz alone |
| `EnhancedRadioText.CycleShowsText` | modules/ert.lua:56-67 | the segments read up to the carriage return are the text cut at a carriage return and at 128 bytes |
| `EnhancedRadioText.ShownIs` | modules/ert.lua:56-57 | that is what comes before 0x0D in the first 128 bytes |
| `EnhancedRadioText.PackedRead` | modules/ert.lua:30-33 | a receiver reads the address off block B and the characters in order off blocks C and D |
| `EnhancedRadioText.SetFollows` | modules/ert.lua:48-77 | a set in any state starts the text from segment 0, whether it goes on air at once or waits |
| `EnhancedRadioText.NextFollows` | modules/ert.lua:14-37 | each call sends the reference's segment, or nothing exactly for an empty text |
| `EnhancedRadioText.LatestTextOnAir` | modules/ert.lua:14-77 | from a set on every group of every run is a segment of the latest text |
| `EnhancedRadioText.ReceiverReadsText` | modules/ert.lua:14-77 | one cycle after a set displays the text |
| `EnhancedRadioText.AddressFits` | modules/ert.lua:30 | every address fits its five bits |
| `EnhancedRadioText.ErtModule.SetOffset` | src/lua_api.c:32-44 | data and zeros are written in their place and nothing around it changes |
| `EnhancedRadioText.ErtModule.SetErt` | modules/ert.lua:48-77 | the user data change as the abstract set does, other modules' data not at all |
| `EnhancedRadioText.ErtModule.Handler` | modules/ert.lua:14-37 | the user data change as the abstract step does, and its segment is sent |
| `Charset.GetAfterInsert` | charset.py:239-248 | the last code stored under a key is found there, and keys beyond it are gone |
| `Charset.InsertSucceeds` | charset.py:240-248 | storing fails only below a key that is stored as a whole |
| `Charset.BuildHoldsTable` | charset.py:236-248 | a prefix-free table compiles and the trie holds exactly the table, the last entry of a key winning |
| `Charset.WalkComputesTable` | charset.py:249-265 | the nested switches map every key to its code and pass it as a whole, whatever follows |
| `Charset.WalkOutsideTable` | charset.py:262 | where no key begins, the switches write a question mark |
| `Charset.TextConverts` | src/lib.c:79-380 | a text of table characters becomes its codes, one byte a character, cut at the buffer size |
| `Charset.Utf8PrefixFree` | charset.py:237 | no character's UTF-8 form begins another's |
| `Charset.Utf8RoundTrip` | charset.py:237 | decoding gives back every character of the first plane, whatever follows it |
| `Charset.CharsetRoundTrip` | src/lib.c:79-380 | for every charset without repeated code points conversion inverts UTF-8 encoding |
| `Charset.Switch` | charset.py:249-265 | entering the switches one after another is the walk over the trie |
| `Charset.ConvertToRdsCharset` | src/lib.c:79-380 | with the array its callers pass: the converted text and its terminator, or a terminator past the array, or a read past the string, as the walk decides |
| `Charset.SetterStaysInside` | src/lua_api.c:75-82 | for every string, a setter of N characters keeps inside its array exactly if the conversion has at most N codes |
| `Charset.ReadsPastEnd` | src/lib.c:79-380 | a string is read past its terminator exactly if it ends inside a key and the array takes all codes before that |
| `Charset.ScanConverts` | src/lib.c:79-380 | otherwise the conversion is that of the string alone, whatever follows its terminator |
| `Charset.ShortStringStaysInside` | src/lua_api.c:75-82 | and a string of at most N bytes is then safe in a setter of N characters |
| `Charset.Utf8StaysInside` | src/lua_api.c:75-82 | all well-formed UTF-8, in and outside the charset, is read no further than its end, and its count of codes decides |
| `Charset.CharsetTextStaysInside` | src/lua_api.c:75-82 | for a text of charset characters that count is their number |
| `Charset.NineCharacterPs` | src/lua_api.c:201-204 | a PS of nine characters does not |
| `Charset.ThreeFacesPs` | src/lua_api.c:201-204 | nor does one of three four-byte characters, whatever the charset |
| `Charset.ScriptConversionInside` | src/lua_api.c:334-343 | the array that scripts convert into suffices for every string that does not end inside a key |

## Left out

- EON groups (src/rds_groups.c:24-43 and 183-234): their payload is a parameter; only the header bits that the encoder adds afterwards are covered.
- AlternativeFrequencies.AfList.Add: an overrun is reported and leaves the list as it was, since the memory behind it is not modelled.
- Floating-point rounding (src/lib.c:60-70, modules/af.lua:14-28, src/rds_groups.c:123-124): the formulas are over real numbers.
- UecpFrame.BurstNeverAccepted: speaks of bursts in the unstuffed body with its length byte intact; a burst on the stuffed bytes can make or break an escape, and a changed length moves the place where the checksum is looked for.
- UecpDispatch.Execute: the ASCII commands of a manufacturer message are recorded, their effect is not modelled.
- RadioTextOnAir.TextReachesListener: assumes that no script or custom group of stream 0 passes itself off as type 2A.
- EngineRuns.EngineReachesListener: likewise for the group type of the engine; the RadioText rotation is proved over runs of its own engine and not carried to the listener.
- DifferentialLink.StreamsStayInRange: the number of streams read back from the state file is not checked either and is not modelled.
- Charset.ConvertToRdsCharset: what a terminator past the array overwrites, and what the bytes read past a string hold, are not modelled.
- SlotRuns.RunFollowsSequence: sequences of at most 31 codes; longer ones run past the stored codes, where the byte read is a parameter.
- UecpRadioText.LoadedBufferRotates: writing and output programme agree when the field arrives, as WritingRestored provides.
- Rft.CycleDeliversFile: starts at a segment 0; a file sent over a running one with the same application id goes on at the old segment.
- Oda.OneRound: counts consecutive AID calls; AID and data calls share one pointer, and when they alternate each turns the line as AidServesQueue and DataServesQueue say, but no number of calls is claimed to announce everyone.
- Oda.OdaTable.GetData: a handler's answer is a parameter; handlers do not change the table.
- Charset: `charset.py` mutates nested dicts in place and writes source text; the trie is a value here and the switches are its walk.
- TuningOnAir.FrequenciesReachListener: the list is kept while it is heard; a list replaced in mid-cycle leaves the position where it is, and what the listener makes of the cycle cut short is not described.
- The free-format buffer's `pre_tx` hook (modules/uecp.lua:229-240), `modules/rds2_oda.lua`, RT+ packing, the ASCII commands and `get_ert`.
- The all-space RadioText installed at start-up (src/rds.c:248) is part of the start state; what a listener displays before the first set is not stated.
- The `ps_transmission` hook, and what the `rt_transmission` hook does beyond RadioText.
- Switching the programme on air inside the C encoder; one programme is modelled, the three of UECP excepted.
- Sockets, servers, files, configuration, threads and time keeping; every packet is taken to be delivered.
