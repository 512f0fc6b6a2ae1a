# Tesla Model 3 battery-module monitor, modelled in Dafny

The firmware polls the battery-management boards (BMBs) of a Tesla Model 3
pack over SPI. It wakes the chips and takes snapshots. It then reads their
measurement registers into fixed stores: cell voltages, chip voltages,
temperatures, 5 V supplies and configuration words. From those it
recomputes the pack statistics and the per-cell balance commands, and it
writes the balance commands back in a checksummed configuration frame.
Every value it computes lands in a named parameter table. Two ESPHome
components read the console output of that table over a UART:

- a simple one that parses `name=value` lines;
- a richer one that parses `name: value` lines, the console's markers and
  the balance status.

The model covers:

- the two checksums: the CRC-8 PEC of read commands and the CRC-14 of
  configuration writes;
- the register decoders and the stores they fill;
- the configuration-frame encoder;
- the nine-state poll sequencer and the bus traffic of each state;
- the cell-voltage aggregation pass;
- the parameter table with its name lookup and typed stores;
- the line assembly and line parsers of both ESPHome components.

Bus traffic is a list of operations: chip select low or high, a 16-bit
transfer, or a delay. The words clocked back by the chips are a parameter
of the decoders. Everything else is pure functions over immutable records.

Modules, in dependency order:

- `Common`: bytes, 16-bit words, `rev16`.
- `Bits`: bit tests and popcounts on naturals.
- `Bus`: operations, framing, words sent.
- `Checksum`: both CRCs.
- `Registers`: stores, frames, decoders and their round trips.
- `DecodeLoops`: the receive and decode loops step by step, as written and
  corrected.
- `ConfigFrame` and `ConfigWrite`: `WriteCfg`.
- `Params`: the parameter table and its start-up values. BatStart takes
  ChipNum = numbmbs * 2 (src/BatMan.cpp:219), which is 2 at start-up.
- `Aggregation`, `CellPass` and `CellReport`: `upDateCellVolts`.
- `Sequencer`: `StateMachine`, `IdleWake`, `WakeUP`, `GetData`, `GetTempData`.
- `Text`: trimming and CR/LF line assembly, shared by both components.
- `UartLink`: the `tesla_bms_uart` component.
- `BmsParser`: the `tesla_bms_parser` component.

## Model

| member | source | states |
|---|---|---|
| Common.Rev16Involution | include/BatMan.h:17-19 | swapping the two bytes of a 16-bit word twice gives the word back |
| Common.Rev16OfWord | include/BatMan.h:17-19 | rev16 of the word with high byte hi and low byte lo is the word with high byte lo and low byte hi |
| Common.Rev16Sentinel | include/BatMan.h:17-19 | rev16 maps 0xFFFF, the "no reply" word, to itself and nothing else to it, and maps 0 to 0 |
| Common.WordOfSplit | src/BatMan.cpp:503-507 | splitting a reply word into high and low byte and joining them again is the identity, both ways |
| Checksum.CalcCrc | src/BatMan.cpp:1100-1110 | the loop of calcCRC computes the table fold from seed 0x10; the empty input gives 0x10 and the last byte enters as table[fold ^ byte] |
| Checksum.TableFoldSnoc | src/BatMan.cpp:1104-1108 | appending a byte to the input folds it in with one more table lookup |
| Checksum.ReadPecGroupsAtoC | src/BatMan.cpp:46-48 | the PEC byte calcCRC({id, 0}) of the reads of cell groups A, B, C matches the commented command table (0x70, 0x34, 0xDD) |
| Checksum.ReadPecGroupsDtoF | src/BatMan.cpp:49-51 | the same for cell groups D, E, F (0xC9, 0x20, 0xE1) |
| Checksum.ReadPecOtherVectors | src/BatMan.cpp:52-55 | the same for Aux A (0x08), status (0xF5) and configuration (0x94) reads |
| Checksum.Crc8TableNotLinear | src/BatMan.cpp:114-131 | the verbatim table is not XOR-linear, and its sixteenth row, absent from the initialiser, is zero |
| Checksum.Crc14TableIsPolynomial | src/BatMan.cpp:134-170 | every entry i of crc14table is what eight turns of the crc14_bits shift register, polynomial 0x025B, make of i placed in bits 6..13 |
| Checksum.Crc14BytesBelow | src/BatMan.cpp:1112-1122 | after at least one byte, or from a 14-bit start, crc14_bytes leaves the accumulator below 0x4000 |
| Checksum.Crc14Bits | src/BatMan.cpp:1124-1142 | crc14_bits leaves the accumulator below 0x4000 for every len_b up to 8 |
| Checksum.ConfigPecOfZero | src/BatMan.cpp:729-732 | the PEC of an all-zero balance word, from seed 0x0010 over F3 00 00 00 and then two bits, is 0x38DC |
| Registers.VoltageOfIsTruncation | src/BatMan.cpp:521-530 | a stored cell voltage is the reply word divided by 12.5 and truncated toward zero |
| Registers.DecodeCells | src/BatMan.cpp:517-600 | registers 0x47..0x4B write only cell slots 3k..3k+2 of each chip and no other store |
| Registers.Decode | src/BatMan.cpp:515-687 | the decode switch keeps the stores valid, and a register id it does not handle changes nothing |
| Registers.SilentFrameChangesNothing | src/BatMan.cpp:515-687 | a frame of all-0xFF bytes, as from absent chips, leaves every store unchanged whatever the register |
| Registers.FrameOfWords | src/BatMan.cpp:503-507 | reply word k sits big-endian at bytes 2k, 2k+1 of the buffer, and read little-endian it is its rev16 |
| Registers.CellRoundTrip | src/BatMan.cpp:517-600 | a frame laid out as chips send cell words decodes into exactly those words scaled by 1/12.5, sentinel words aside |
| Registers.ChipVRoundTrip | src/BatMan.cpp:602-614 | register 0x4C round trip: the chip-voltage word of chip h lands in ChipV[h] |
| Registers.AuxTempRoundTrip | src/BatMan.cpp:616-660 | register 0x4D round trip for the two internal temperatures of each chip |
| Registers.Aux5vRoundTrip | src/BatMan.cpp:633-650 | register 0x4D round trip for the 5 V supply, with the byte swap of chips 0, 3, 5 and 7 undone by the decoder |
| Registers.CfgRoundTrip | src/BatMan.cpp:662-682 | register 0x50 round trip: both big-endian configuration words of chip h land in Cfg[h] |
| Registers.TempRoundTrip | src/BatMan.cpp:761-781 | GetTempData stores reply words 1, 5, ..., 29 in Temps[0..7], skipping 0xFFFF |
| DecodeLoops.Receive | src/BatMan.cpp:503-507 | the receive loop bounded at 72 bytes fills the buffer with the 36 reply words, high byte first |
| DecodeLoops.ReceiveAsWritten | src/BatMan.cpp:503-507 | the receive loop as written clocks in 37 words and stores the last at bytes 72 and 73 of the 72-byte buffer |
| DecodeLoops.CellLoopCorrected | src/BatMan.cpp:521-531 | the cell decode loop over chips 0..7 stays within bounds and computes DecodeCells |
| DecodeLoops.CellLoopOverruns | src/BatMan.cpp:521-531 | the cell decode loop as written (h <= 8) reads past the buffer and writes a ninth Voltage row for every frame |
| DecodeLoops.ChipVLoopCorrected | src/BatMan.cpp:606-613 | the 0x4C loop over chips 0..7 computes DecodeChipV |
| DecodeLoops.ChipVLoopOverruns | src/BatMan.cpp:606-613 | the 0x4C loop as written reads inside the buffer but writes ChipV[8], past the store |
| ConfigFrame.MaskBits | src/BatMan.cpp:715-726 | the even mask keeps exactly the even bit positions and the odd mask exactly the odd ones |
| ConfigFrame.PassShareBits | src/BatMan.cpp:710-726 | the masked balance command has bit k set exactly when the command has it and k has the parity of the current pass |
| ConfigFrame.MaskedBytesAreShare | src/BatMan.cpp:710-726 | masking the two command bytes separately equals masking the 16-bit command |
| ConfigFrame.NoAdjacentSlots | src/BatMan.cpp:715-726 | no pass ever balances two neighbouring cells |
| ConfigFrame.PassesPartition | src/BatMan.cpp:715-726 | the even and odd shares of a command are disjoint and sum to the command |
| ConfigFrame.BalanceWord | src/BatMan.cpp:736 | the balance word sent is the byte-swap of the masked command |
| ConfigFrame.CfgFrame | src/BatMan.cpp:698-737 | the frame has 25 words, starts with the write command 0x112F and carries register word F300 at every group start |
| ConfigFrame.WriteCfg | src/BatMan.cpp:691-758 | WriteCfg is one framed transaction of the 25-word frame and flips the even/odd phase |
| ConfigWrite.FrameGroup | src/BatMan.cpp:703-737 | group h holds chip 7-h's masked command byte-swapped, followed by its 14-bit PEC |
| ConfigWrite.ConsecutiveCallsCoverCommand | src/BatMan.cpp:703-748 | two consecutive writes balance disjoint halves of chip 7-h's command whose union is the whole command |
| ConfigWrite.IdlePec | src/BatMan.cpp:703-737 | with no cell balancing, the PEC of every group is 0x38DC |
| Params.CellNamesAsListed | src/Param.cpp:11-49 | the table has 147 names; the cell names u1..u108 start at index 6 |
| Params.NamesDistinct | src/Param.cpp:11-49 | no two table entries share a name, so a name identifies one parameter |
| Params.DecimalRoundTrip | src/Param.cpp:16-26 | the decimal suffix of a cell name reads back as its number |
| Params.GetParamName | src/Param.cpp:139-144 | the result is "unknown" exactly when the index is outside the table, so the answer tells whether the index was valid |
| Params.UnknownNotAName | src/Param.cpp:139-144 | the fallback name "unknown" is not in the table |
| Params.GetParamFromName | src/Param.cpp:146-153 | the lookup returns -1 exactly when the name is not in the table, and otherwise the first index holding it |
| Params.NameRoundTrip | src/Param.cpp:139-153 | looking up the name of a valid index gives the index back |
| Params.IndexRoundTrip | src/Param.cpp:139-153 | taking the name of a found index gives the name back |
| Params.GetInt | src/Param.cpp:115-117 | reading an int returns its stored value (0 when absent) and changes no value |
| Params.SetInt | src/Param.cpp:119-121 | writing an int changes that parameter alone and leaves the float store untouched |
| Params.SetFloat | src/Param.cpp:127-129 | writing a float changes that parameter alone and leaves the int store untouched |
| Params.SetThenGet | src/Param.cpp:115-129 | a value written is the value read back, for ints and floats |
| Params.StoresSeparate | src/Param.cpp:115-129 | the int and float stores are independent even under the same index |
| Params.SetParamFromString | src/Param.cpp:187-215 | an unknown name fails and changes nothing; a failure changes nothing; a success writes the named parameter, as an int when the whole text is an integer and otherwise as a float |
| Params.SetByNameIsLocal | src/Param.cpp:187-215 | setting a parameter by name changes no other parameter |
| Params.SetByOwnName | src/Param.cpp:187-215 | setting an integer text under the name of index p stores it at p |
| Params.InitialReadings | src/Param.cpp:51-110 | the start-up store, which a static initializer fills before anything runs (src/Param.cpp:350-355), reads numbmbs = 1 and 0 everywhere else; every table entry except BalanceCellList has a numeric entry, current and as8510_temp as floats |
| Aggregation.UpDateCellVolts | src/BatMan.cpp:808-894 | the scan over chips and slots computes the reference fold Walk and publishes the pack statistics exactly when it finishes before the 101-cell limit |
| Aggregation.WalkNumbers | src/BatMan.cpp:829-870 | the cells recorded are the present cells (voltage above 10) in chip-then-slot order, each with its voltage |
| Aggregation.WalkExtremes | src/BatMan.cpp:836-846 | the tracked maximum and minimum bound every recorded cell and point to the first cell holding them |
| Aggregation.WalkBalance | src/BatMan.cpp:854-863 | balance bit y of chip x is set exactly for recorded cells above umin + 20 when balancing is on; the count equals the number of bits set |
| Aggregation.WalkChips | src/BatMan.cpp:872-879 | every closed chip reports how many of its slots 0..13 hold a present cell |
| CellPass.PassNumbering | src/BatMan.cpp:829-890 | after the pass, the recorded cells are exactly the present cells of the scanned chips, in order, with their voltages |
| CellPass.PassExtremes | src/BatMan.cpp:819-846 | CellVMax and CellVMin after the pass are the extremes of the recorded cells, and CellMax/CellMin point to their first occurrence; CellVMin stays 5000 when no cell is below it |
| CellPass.PassBalance | src/BatMan.cpp:818-863 | CellBalCmd bits, the balancing count and BalanceFlag agree with the hot cells of the pass |
| CellPass.PublishedBalanceBits | src/BatMan.cpp:854-863 | once published, bit y of chip x is set exactly when cell (x, y) is present and hot |
| CellPass.BalanceDisabled | src/BatMan.cpp:854 | with the balance parameter 0, no cell is balanced and BalanceFlag stays false |
| CellPass.PassCounts | src/BatMan.cpp:829-890 | the statistics are published exactly when the scanned chips hold at most 100 cells, and then per-chip and total counts are right |
| CellReport.PassReport | src/BatMan.cpp:808-894 | the parameters written: u1.. hold the recorded voltages, CellMax/CellMin the positions, ChipNCells the per-chip counts, umax/umin/deltaV/CellsPresent only when published, CellsBalancing always, balance untouched |
| CellReport.NextPassSettings | src/BatMan.cpp:854-856 | the next pass reads the umin the previous pass published, and the balance setting it did not touch |
| CellReport.ChipCountNames | src/BatMan.cpp:875 | the per-chip count of chip x goes to Chip1Cells+x, which for chips 4 and 5 are the current and as8510_temp entries |
| CellReport.StartUpPass | src/BatMan.cpp:853-864 | `balance` is 0 in the start-up store, so a pass run on it sets no balance bit, counts no balancing cell and leaves BalanceFlag false |
| Sequencer.StateMachine | src/BatMan.cpp:327-466 | one call writes LoopState after every call and LoopCnt when a cycle restarts; outside state 7 it writes no other parameter and leaves BalanceFlag and CellBalCmd alone; in state 7 the parameters, BalanceFlag and CellBalCmd are those of the upDateCellVolts pass over the decoded registers |
| Sequencer.UpdateState | src/BatMan.cpp:431-438 | state 7 sends nothing, moves to state 8, writes the numbered cells to u1.., sets CellBalCmd bits exactly for the present cells switched to balancing, and CellsBalancing counts those bits with BalanceFlag telling whether there is one |
| Sequencer.WakeUpSends | src/BatMan.cpp:788-796 | WakeUP is five separate one-word transactions of 0x2AD4 |
| Sequencer.IdleWakeSends | src/BatMan.cpp:469-480 | IdleWake sends mute while balancing and unmute otherwise, each followed by a zero word |
| Sequencer.GetDataSends | src/BatMan.cpp:482-507 | GetData sends the register id and its PEC in the high bytes, then 37 zero padding words, one per pass of the `count2 <= 72` loop (39 words in all) |
| Sequencer.StateFramed | src/BatMan.cpp:327-455 | every state's bus traffic is a sequence of complete chip-select transactions |
| Sequencer.StepInRange | src/BatMan.cpp:327-452 | from a state in 0..8 the next state is in 0..8 and is the next state, or 0 after the idle wait |
| Sequencer.StuckOutsideRange | src/BatMan.cpp:457-461 | a state outside 0..8 does nothing and stays where it is |
| Sequencer.BalEvenFlipsInStateSix | src/BatMan.cpp:420-428 | the even/odd phase changes in state 6, the configuration write, and in no other state |
| Sequencer.CycleLength | src/BatMan.cpp:442-452 | a cycle from state 0 returns to state 0 after exactly 8 + cycletime + 1 calls, with LoopRanCnt incremented modulo 2^16 and the phase flipped |
| Sequencer.SuccessiveConfigWrites | src/BatMan.cpp:420-428 | the configuration writes of two consecutive cycles use opposite phases, so together they balance each chip's whole command |
| Sequencer.RegistersReadBeforeUpdate | src/BatMan.cpp:376-438 | every cell, chip-voltage and auxiliary register is read in some state before 7, where the pack values are recomputed, and in no state from 7 on |
| Text.Find | esphome-interface/external_components/tesla_bms_uart/tesla_bms_uart.cpp:40 | find returns the first position of the character, or none when absent |
| Text.TrimIsTrimOf | esphome-interface/external_components/tesla_bms_uart/tesla_bms_uart.cpp:52-55 | the trim is a slice of the input with only blanks removed on either side and no blank at either end |
| Text.TrimUnique | esphome-interface/external_components/tesla_bms_uart/tesla_bms_uart.cpp:52-55 | that characterisation has a single solution |
| Text.TrimIdempotent | esphome-interface/external_components/tesla_bms_uart/tesla_bms_uart.cpp:52-55 | trimming twice is trimming once |
| Text.TrimEmptyIff | esphome-interface/external_components/tesla_bms_uart/tesla_bms_uart.cpp:52-55 | the trim is empty exactly when the input is all blanks, including the npos+1 wrap of an all-blank input |
| Text.TrimPadded | esphome-interface/external_components/tesla_bms_uart/tesla_bms_uart.cpp:52-55 | blanks added around a trimmed text are removed again |
| Text.Assemble | esphome-interface/external_components/tesla_bms_uart/tesla_bms_uart.cpp:17-30 | the buffer kept never holds CR or LF and every line handed on is non-empty and free of CR and LF |
| Text.ReadLines | esphome-interface/custom_components/tesla_bms_parser/tesla_bms_parser.cpp:91-103 | the byte loop computes the reference assembly |
| Text.AssembleIsSplit | esphome-interface/external_components/tesla_bms_uart/tesla_bms_uart.cpp:17-30 | the lines are the non-empty pieces of buffer + input between CR/LF terminators, and the buffer is the piece after the last terminator |
| Text.AssembleKeepsText | esphome-interface/external_components/tesla_bms_uart/tesla_bms_uart.cpp:17-30 | no character is lost or added: the lines and the new buffer concatenate to the old buffer and the input without terminators |
| Text.AssembleOneLine | esphome-interface/external_components/tesla_bms_uart/tesla_bms_uart.cpp:17-30 | one line and its terminator from an empty buffer give that line and an empty buffer |
| UartLink.NoEqualsNoPublication | esphome-interface/external_components/tesla_bms_uart/tesla_bms_uart.cpp:40-44 | a line without '=' publishes nothing |
| UartLink.SplitAtFirstEquals | esphome-interface/external_components/tesla_bms_uart/tesla_bms_uart.cpp:40-66 | the line is split at its first '='; it publishes exactly when the trimmed name has a non-null sensor, and then publishes atof of the trimmed rest |
| UartLink.PublishesOnlyToRegistered | esphome-interface/external_components/tesla_bms_uart/tesla_bms_uart.cpp:62-66 | a publication only ever goes to a registered, non-null sensor |
| UartLink.RenderedLineReadBack | esphome-interface/external_components/tesla_bms_uart/tesla_bms_uart.cpp:46-65 | a `name=value` line with blanks around either half publishes atof(value) to the sensor of name |
| UartLink.LoopOneLine | esphome-interface/external_components/tesla_bms_uart/tesla_bms_uart.cpp:17-30 | one complete line parses once and leaves the buffer empty |
| UartLink.LoopKeepsBuffer | esphome-interface/external_components/tesla_bms_uart/tesla_bms_uart.cpp:17-30 | the loop keeps the buffer free of terminators, and everything it publishes goes to registered sensors |
| BmsParser.UpdateIsLocal | esphome-interface/custom_components/tesla_bms_parser/tesla_bms_parser.cpp:212-214 | update_sensor_value stores the value under its name and changes no other value |
| BmsParser.UpdateEvents | esphome-interface/custom_components/tesla_bms_parser/tesla_bms_parser.cpp:216-232 | it publishes to the sensor of that name when one is registered, and for "balance" turns the switch on exactly when the value exceeds 0.5 |
| BmsParser.MarkerLineStoresNothing | esphome-interface/custom_components/tesla_bms_parser/tesla_bms_parser.cpp:170-180 | a "param list", "Parameter List:" or "param get" line only clears the waiting flag |
| BmsParser.ColonSplit | esphome-interface/custom_components/tesla_bms_parser/tesla_bms_parser.cpp:183-197 | a plain `name: value` line stores the converted value under the trimmed name and nothing else |
| BmsParser.ConversionFailureKeepsValues | esphome-interface/custom_components/tesla_bms_parser/tesla_bms_parser.cpp:195-201 | when stof fails, no value is stored and nothing is published |
| BmsParser.BalanceStatus | esphome-interface/custom_components/tesla_bms_parser/tesla_bms_parser.cpp:204-209 | "Balance ENABLED" anywhere stores 1, otherwise "Balance DISABLED" stores 0, overriding the line's own pair |
| BmsParser.LineIsLocal | esphome-interface/custom_components/tesla_bms_parser/tesla_bms_parser.cpp:167-210 | a line changes no value other than its own name and "balance" |
| BmsParser.ParseAllKeepsKeys | esphome-interface/custom_components/tesla_bms_parser/tesla_bms_parser.cpp:212-214 | values are only added or overwritten, never removed |
| BmsParser.ParseAllClearsWaiting | esphome-interface/custom_components/tesla_bms_parser/tesla_bms_parser.cpp:170-180 | a run of lines ends with the waiting flag clear when a marker line is followed only by plain lines |
| BmsParser.LoopOneLine | esphome-interface/custom_components/tesla_bms_parser/tesla_bms_parser.cpp:91-103 | one complete line is parsed exactly once and leaves the buffer empty |

## Left out

- SPI, GPIO, Serial and the ESPHome logging are not modelled. A reply is a sequence of words given to the decoders, and bus traffic is a list of operations.
- Timing is not modelled: `millis`, the 100 ms call period and `delayMicroseconds` become `Delay` operations, not time.
- `BmbTimeout` is true from start-up (src/BatMan.cpp:177, 203) and never cleared, so state 0 always wakes the chips. The model takes it as a free input of each step, which also allows the false branch the program never takes.
- `upDateTemps` and `upDateAuxVolts` are left out: they are floating-point conversions with no contract to state beyond their formulas.
- Sequencer.StateMachine: in state 7 the parameter store reflects `upDateCellVolts` only. `upDateTemps` runs before it and `upDateAuxVolts` after it (src/BatMan.cpp:435-437). Neither writes a key that `upDateCellVolts` writes or reads, so the modelled keys are right. `upDateAuxVolts` does read the CellsPresent that `upDateCellVolts` has just written (src/BatMan.cpp:1005, 1011-1012). These writes are not applied:
  - `upDateTemps`: the floats Chipt0+g, Cellt0_0+2g, Cellt0_1+2g, TempMax and TempMin;
  - `upDateAuxVolts`: the ints Chip1_5V, Chip2_5V and uavg, and the floats udc, ChipV1..ChipV8, chargeVlim and dischargeVlim.
- Sequencer.StateMachine: `upDateTemps` also rewrites the Temp1/Temp2 register stores in place as degrees (src/BatMan.cpp:1056-1057). The register store that is an input of each step does not reflect this.
- The register store the cell pass reads and ChipNum are inputs of each step. Their link to the replies of the earlier states goes through Registers.Decode.
- The `upDateCellVolts` tail that records the first u1/u2 values and prints the report is left out: it is debug output.
- Floating point is modelled as `real`, so `float` rounding of stored voltages is not modelled. Stored cell values are integers below 5243 and exact in `float`.
- `strtol`, `strtof`, `atof` and `std::stof` are abstract parameters of the parsers, so their number formats are not modelled.
- `stringParams`, `GetString`/`SetString`, `PrintParam` and `PrintAllParams` are left out: they only print.
- Parameter keys are positions in the name table. The `PARAM_NUM` enum in include/Param.h does not match the table, so keys are taken from the table.
- The parser component's periodic `param list` request and its response timeout are left out: they are timing.
- Sensor registration, `setup`, `dump_config` and the update callback of both components are left out.
- Chip counts 5..8 of `upDateCellVolts` land past the four `ChipNCells` names. CellReport.ChipCountNames states where they land; their meaning is not modelled.
- DecodeLoops.ReceiveAsWritten: the two bytes written past the buffer are returned as positions, not as effects on the variables that follow `Fluffer` in memory.
- DecodeLoops.CellLoopOverruns: reading and writing past the stores is modelled as failure (`None`), not as the memory it would touch.

## Findings

| source | as written | input that shows it | evidently intended | confidence | as-written member | corrected member |
|---|---|---|---|---|---|---|
| src/BatMan.cpp:503-507 | `count2 <= 72` clocks in 37 reply words and stores the last at `Fluffer[72]` and `Fluffer[73]` of the 72-byte buffer (src/BatMan.cpp:64) | any register read | `count2 < 72`: 36 words fill the 72 bytes | not executed | DecodeLoops.ReceiveAsWritten | DecodeLoops.Receive |
| src/BatMan.cpp:521-613 | the decoders of registers 0x47..0x4C loop `h <= 8`, reading `Fluffer[72..77]` and writing `Voltage[8]` and `ChipV[8]` of 8-row stores | any frame of register 0x47, or of 0x4C | `h < 8`, as the 0x4D and 0x50 decoders do | not executed | DecodeLoops.CellLoopOverruns | DecodeLoops.CellLoopCorrected |
