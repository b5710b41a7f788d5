# Verified model of the digital-TV modulator agent

The agent drives TV modulator boards through a closed library. Around that library it carries
arithmetic, protocols and codecs of its own, and these are what this project models and proves.

* **DVB-C2** (`CarrierMap`, `CarrierMapClosedForm`, `CarrierMapLosses`, `C2Capacity`). `CalcC2MI_Ctot` marks a grid of 4
  symbols by 3408 carriers with pilots, reserved tones, edges and a notch, and counts the unmarked
  cells. The grid is proved equal to a declarative classification, the count to a closed form that is
  periodic in the start carrier, with an exact price for every notch, and the three capacity functions are proved to agree: a PLP that is
  admitted by its cells never carries more than the reported maximum rate.
* **DVB-T2** (`DvbT2`, `T2Capacity`, `L1PostSize`). The configured rate of a PLP against the maximum rate of the
  frame, and the padding, puncturing and rounding of the L1-post signalling.
* **Symbol rates** (`SymbolRate`, `BankOffset`). Symbol rate and burst bitrate of QAM_A, QPSK and DVB-S2
  invert each other; the SDRAM bank size is the largest permitted power of two.
* **EEPROM and FPGA** (`SpiEeprom`, `PexEeprom`, `FpgaLoader`). The byte-serial EEPROM driver runs on a
  state machine of the PEX8111 controller and the SPI chip behind it; the bit-serial FPGA loader is read
  back by sampling its clock line.
* **Streams and playing** (`IqCapture`, `TmccInfo`, `BoardGroups`, `PlayControl`). The continuity checker of captured I/Q
  files, the decoder of the ISDB-T TMCC words, and start, stop and record on boards whose slots share one
  ASI output.
* **Text codecs** (`RegistryText`, `Registry`, `RowChunks`, `LicenseNumber`). The key=value store of the
  Linux build, rows of 250 characters for the status display, and the license number in the board EEPROM.

Every table and every formula that such a theorem compares with itself is also tied to something outside
it: frames to the payload of their blocks, efficiencies to the symbols of a frame, code tables to their
parity and order, and cell tables to weighted totals that change with any one entry.

`CArithmetic` holds the C operators and what several modules share: division and remainder truncate toward zero, `(long)` truncates, and
the two builds round differently (`round` away from zero on Linux, `Math::Round` to even on WIN32).
`double` is an exact real.

Code that changes state step by step is modelled by methods over arrays, sequences and classes, proved
against specification functions; the laws are lemmas about those functions. In `PexEeprom` each method of
the driver is proved on the class `Pex8111`. Its busy and write-in-progress times are arbitrary, up to
limits fixed when the device is made. When the busy times stay below the poll limit the device is
responsive, and the results about bytes and frames hold; every other device is covered too, with what the
driver still guarantees there. In `PlayControl`, `Controller` has the methods of the program, and every
one is proved equal to one step of the state machine about whose runs the lemmas speak. The groups of
slots that they rely on are not assumed: `BoardGroups` proves that initialization sets them up.

## Where the code differs from its documents

* EN 302 755 clause 7.3.1.2 scales the shortening by 6/5 before puncturing. The program computes
  `(int)(6.0 / 5.0)`, which is 1, so the model does not scale (`util_ind.cpp:5178`).
* The WIN32 rounding lets the padding be zero and leaves an exact multiple unenlarged.
  `L1PostSize.WhenNothingIsAdded` states from the inputs exactly when this happens, and
  `L1PostSize.NothingIsAddedTo32Bits` gives an input.
* The text for "radio 3 seg." in `UpdateRemuxInfo` belongs to broadcast type 2, but the decoded word has
  one bit for the type, so that the branch of type 2 is never taken.
* In the table of DVB-T2 data cells, pilot pattern PP2 leaves more cells than PP1 in every row that has
  both, except in the row of 8K frames in normal carrier mode, where 6124 follows 6208
  (`util_ind.cpp:4624-4627`, `T2Capacity.SecondPatternGains`). The model keeps the value.
* An I/Q check subtracts 16 megabytes from its limit. It therefore checks no word with a configured size
  of 1 to 16 megabytes, nor for a file of just 16 megabytes whose whole size counts
  (`IqCapture.WhenNothingIsChecked`).
* A busy flag that clears on the very last poll counts as a timeout.
* A recording file that cannot be created leaves its slot marked as playing without its stream being
  selected (`wrapdll.cpp:4093`). `PlayControl.RecordFileFailureBreaks` says exactly when that breaks the
  invariant of the shared output, and `PlayControl.RecordFileFailureBreaksOrdinary` shows it on a machine
  with one TVB594.

## Model

| member | source | states |
|---|---|---|
| CArithmetic.DivRem | util_ind.cpp:5850-5875 | C division truncates toward zero and the remainder takes the sign of the dividend |
| CArithmetic.TruncTowardZero | util_ind.cpp:5299 | a cast to an integer goes toward zero and loses less than one |
| CArithmetic.RoundToNearest | util_ind.cpp:5656-5666 | rounding goes to a nearest integer; of two, WIN32 takes the even one and Linux the one farther from zero |
| CarrierMap.Mark | util_ind.cpp:5846-5902 | the final mark of a cell is that of the highest class it is in, and 0 exactly when it is in none of the scattered, continual, reserved, edge and notch classes |
| CarrierMap.MarkCell | util_ind.cpp:5850-5902 | the sequence of overwrites leaves the mark of the class with the highest precedence: notch, edge, reserved, continual, scattered |
| CarrierMap.FillFrame | util_ind.cpp:5846-5907 | the whole grid holds the declarative marks, and each symbol counter the number of its payload carriers |
| CarrierMap.CalcCtot | util_ind.cpp:5790-5910 | the result is 112 times the number of payload cells of the four symbols |
| CarrierMap.ReservingTonesNeverGains | util_ind.cpp:5869-5879 | turning reserved tones on, or reserving a larger set, never increases the count |
| CarrierMap.AddingNotchNeverGains | util_ind.cpp:5881-5902 | adding a notch of any place and width never increases the count |
| CarrierMap.WideningNotchNeverGains | util_ind.cpp:5881-5902 | widening a notch never increases the count, although its right edge pilots move |
| CarrierMapClosedForm.ScatteredInExactlyOneSymbol | util_ind.cpp:5854-5858 | a carrier divisible by Dx is a scattered pilot in exactly the symbol (j / Dx) mod 4, any other carrier in none |
| CarrierMapClosedForm.ShiftedSymbol | util_ind.cpp:5854-5858 | shifting by 3408 carriers turns symbol i into i + 2 for guard index 0 and keeps it for guard index 1 |
| CarrierMapClosedForm.CountIsWeight | util_ind.cpp:5850-5907 | without notch and reserved tones the count is the sum of 0, 3 or 4 cells for each carrier after the start |
| CarrierMapClosedForm.WindowPeriodic | util_ind.cpp:5852-5867 | every window of 3408 carriers has the same four-symbol weight, wherever it starts |
| CarrierMapClosedForm.PrefixWeight | util_ind.cpp:5850-5867 | the weight of the first n carriers by inclusion and exclusion of scattered and continual pilots |
| CarrierMapClosedForm.PilotTotal24 | util_ind.cpp:5807-5808 | for Dx 24 eight of the thirty continual pilots coincide with scattered ones |
| CarrierMapClosedForm.PilotTotal12 | util_ind.cpp:5807-5808 | for Dx 12 sixteen of the thirty continual pilots coincide with scattered ones |
| CarrierMapClosedForm.CountForPilots | util_ind.cpp:5850-5907 | the closed form of the count for any increasing list of continual pilots |
| CarrierMapClosedForm.ClosedForm | util_ind.cpp:5850-5907 | for every start >= 0 the count is 13378 (guard 0) or 13244 (guard 1), less 0, 3 or 4 by the class of the start carrier |
| CarrierMapClosedForm.PilotTable | util_ind.cpp:5807-5808 | the thirty continual pilots lie on multiples of six and have the weighted totals of the table |
| CarrierMapLosses.NotchTakes | util_ind.cpp:5847-5902 | a notch takes exactly the carriers from n Dx to (n + w) Dx behind the start, its two edges included |
| CarrierMapLosses.NotchCosts | util_ind.cpp:5847-5907 | a notch of any place and width costs exactly the cells of the carriers it takes inside the block |
| CarrierMapLosses.InnerNotchCosts | util_ind.cpp:5847-5907 | the same for a notch inside the block: the weight of its carriers, from the arguments alone |
| CarrierMapLosses.OtherNotchesMarkEdges | util_ind.cpp:5888-5902 | with more than one notch only the two edge carriers of the first are lost |
| CarrierMapLosses.ReservedToneLies | util_ind.cpp:5869-5879 | a reserved tone r lies at carrier r + Dx i of symbol i, once in every 8 blocks of 3408 carriers |
| C2Capacity.TablesAreConsistent | util_ind.cpp:5332-5534 | for every valid row N_ldpc times the code rate is K_ldpc, and cells times bits per cell is N_ldpc |
| C2Capacity.TableRows | util_ind.cpp:5332-5534 | cells, bits, parity and code rates of every row: parity 168, or 128, 160 and 192, and rates that rise with the index |
| C2Capacity.FrameTimeIs | util_ind.cpp:5215-5297 | the frame time from bandwidth, interleaving mode and guard: symbols times carriers with guard, at 48, 56 or 64 MHz over 7 |
| C2Capacity.PlpPayloadIsExact | util_ind.cpp:5213-5298 | without HEM, rate times frame time is exactly the payload of the blocks |
| C2Capacity.MaxPayloadIsExact | util_ind.cpp:5616-5664 | without HEM, the maximum rate carries in a frame the payload of as many blocks as its cells hold |
| C2Capacity.BlockCells | util_ind.cpp:5616-5624 | a block takes N_ldpc / n_mod cells, and with data slice type 1 a header of 32 or 16 |
| C2Capacity.HemGains | util_ind.cpp:5215-5218 | HEM turns both rates into 188 / 187 of their value |
| C2Capacity.PlpCellsOfBlocks | util_ind.cpp:5913-5982 | the cells of a PLP from FEC size, modulation and header type |
| C2Capacity.ReportedRates | util_ind.cpp:5296-5299 | the reported PLP rate is truncated and the maximum rate rounded, with the HEM factor on both |
| C2Capacity.PlpBitrateExample | util_ind.cpp:5205-5300 | the rates of 1000 blocks of 16QAM 2/3 at 8 MHz, without and with HEM |
| C2Capacity.CalcBitrate | util_ind.cpp:5557-5667 | the maximum rate is that of 112 times the counted payload cells, rounded as the platform rounds |
| C2Capacity.PayloadOfCodeWord | util_ind.cpp:5626-5627 | a code word carries exactly K_bch - 80 payload bits |
| C2Capacity.MaxRateIsProportional | util_ind.cpp:5616-5653 | the correction term for a cell remainder vanishes, so the maximum rate is proportional to the cells |
| C2Capacity.RateFitsIffBlocksFit | util_ind.cpp:5213-5298 | for either data slice type and HEM setting, the PLP rate is at most the maximum rate if and only if its blocks fit the cells |
| C2Capacity.AdmittedPlpFits | util_ind.cpp:5913-5982 | when CalcC2MI_plpCells <= CalcC2MI_Ctot, then CalcC2MI_PLPBitrate <= CalcC2MI_Bitrate, after truncation and rounding |
| T2Capacity.CodeOf | util_ind.cpp:4934-5003 | every row has N_ldpc times its code rate equal to K_ldpc, and N_ldpc > K_ldpc > K_bch > 80 |
| T2Capacity.CodeRows | util_ind.cpp:4934-5003 | block lengths, parity 168, 160 or 192, and code rates that rise with the index |
| T2Capacity.CellsTotalIsSum | util_ind.cpp:4926-4931 | C_tot is the sum of the cells of all P2 and data symbols, the last one closing unless the guard is 1/128, less the signalling |
| T2Capacity.ClosingSymbolCosts | util_ind.cpp:4926-4931 | guard 1/128 gains the difference of a data and a closing symbol |
| T2Capacity.ClosingSymbolIsSmaller | util_ind.cpp:4560-4925 | a closing symbol holds fewer cells than a data symbol of its row |
| T2Capacity.ExtendedModeGains | util_ind.cpp:4560-4925 | extended carrier mode never loses a cell, and changes nothing for 1K, 2K and 4K |
| T2Capacity.SecondPatternGains | util_ind.cpp:4560-4925 | PP2 leaves more data cells than PP1 except in the row of 8K in normal mode |
| T2Capacity.TableTotals | util_ind.cpp:4560-4925 | weighted totals of every row of the data and closing tables |
| T2Capacity.P2Totals | util_ind.cpp:4531-4559 | weighted totals of the P2 tables |
| T2Capacity.GuardFractionIs | util_ind.cpp:5008-5022 | the guard intervals in units of 1/256 symbol |
| T2Capacity.FftCarriersIs | util_ind.cpp:5025-5039 | carriers times P2 symbols are 16K, or 32K for the 32K modes |
| T2Capacity.ElementaryPeriodIs | util_ind.cpp:5041-5056 | the sample time is 7 / 8 microseconds over the bandwidth in MHz |
| T2Capacity.FrameTimeGrows | util_ind.cpp:5058 | a frame lasts 2048 samples and one guarded symbol for each further symbol |
| T2Capacity.FrameTimeIs | util_ind.cpp:5058 | the frame time takes guard, carriers, sample time and all P2 and data symbols of the frame |
| T2Capacity.MaxPayloadIsExact | util_ind.cpp:5005-5060 | at the maximum rate a frame carries its modulated bits less parity and header bits of each block |
| T2Capacity.ReportedRates | util_ind.cpp:5060-5123 | the reported rates from modulation, cells, frame time and header modes |
| T2Capacity.BitrateExample | util_ind.cpp:4489-5123 | cells and maximum rate of one 16K frame |
| T2Capacity.Clamp | util_ind.cpp:5061-5072 | the clamp keeps rates within 31 bits and replaces others by the nearer end |
| DvbT2.SymbolsP2Is | util_ind.cpp:5148-5159 | the P2 symbols fill 16K carriers, and there is one for 16K and 32K |
| T2Capacity.PlpRateInClosedForm | util_ind.cpp:5107-5113 | the product of table values is N (K_bch - 80) / T_F times the header factor |
| T2Capacity.GapIsFreeCells | util_ind.cpp:5005-5108 | with HEM and NPD off the two rates differ by (N_mod C_tot - N N_ldpc) / T_F |
| T2Capacity.RateFitsIffBlocksFit | util_ind.cpp:5005-5113 | for every header mode, the exact condition under which the PLP rate is at most the maximum rate |
| T2Capacity.ClampMonotone | util_ind.cpp:5060-5073 | clamping and truncation preserve the order of rates |
| T2Capacity.AdmittedPlpFits | util_ind.cpp:5005-5123 | with HEM and NPD off, blocks that fit the modulated cells never report a rate above the reported maximum |
| L1PostSize.BitsPerCellIs | util_ind.cpp:5139-5146 | 1, 2, 4 and 6 bits a cell |
| L1PostSize.PaddingFits | util_ind.cpp:5161-5171 | padding is at most one bit for each block, K_sig times the blocks is K_post, and K_sig is at most K_bch |
| L1PostSize.CodingFits | util_ind.cpp:5173-5197 | puncturing is never negative, and N_post is a multiple of N_L1_mult at most one multiple above N_post_temp |
| L1PostSize.WhenNothingIsAdded | util_ind.cpp:5163-5197 | the Linux build always pads and enlarges; the WIN32 build does not exactly when a quotient, computed from the inputs in integers, is exact and even |
| L1PostSize.NothingIsAddedTo32Bits | util_ind.cpp:5163-5197 | an empty L1-post with BPSK and 16K FFT gets no padding and no enlargement in the WIN32 build |
| L1PostSize.CellsDivide | util_ind.cpp:5198-5201 | the result divides evenly by the blocks times the P2 symbols (times 2 with one P2 symbol) and loses no bit |
| SymbolRate.FramingEfficiency | util_ind.cpp:761-773 | the framing efficiency of every constellation and pilot setting is between 0.9 and 1 |
| SymbolRate.CountPilotBlocks | util_ind.cpp:770-773 | there is one pilot block for each multiple of 16 below the number of slots |
| SymbolRate.EfficiencyOfFrame | util_ind.cpp:761-773 | the framing efficiency is the share of data symbols in a frame, with and without its pilot blocks |
| SymbolRate.FramePayload | util_ind.cpp:759-776 | a DVB-S2 frame carries exactly K_bch - 80 payload bits, for every constellation, code rate and pilot setting |
| SymbolRate.PilotsCost | util_ind.cpp:770-775 | pilots strictly lower the payload of a symbol |
| SymbolRate.FecRows | util_ind.cpp:597-757 | the BCH block is the code rate of 64800 bits, its parity 128, 160 or 192, and the eleven rates rise |
| SymbolRate.FecIndices | util_ind.cpp:597-757 | for each constellation the code rates rise with the index up to 9/10 |
| SymbolRate.CablePayload | util_ind.cpp:408-431 | QAM_A and QPSK symbols carry 188 in 204 of their bits, QPSK by its code rate |
| SymbolRate.BurstExample | util_ind.cpp:595-777 | the burst bitrates of QPSK 1/2 at 20 megabaud without and with pilots |
| SymbolRate.EfficiencyAgrees | util_ind.cpp:791-835 | both directions use the same payload bits per symbol, although they write the formula differently |
| SymbolRate.RoundTrip | util_ind.cpp:784-1066 | symbol rate to burst bitrate and back is the identity if and only if the symbol rate is a multiple of 1000 |
| SymbolRate.BurstCoversRequest | util_ind.cpp:408-434 | a requested bitrate R gives a burst bitrate in (R - k - 1, R + 999 k], and one of at least R if and only if the truncated symbol rate is no multiple of 1000 or carries exactly R |
| BankOffset.FindLeadingPower | util_ind.cpp:328-336 | the halving loop finds the leading power of two, up to eleven halvings |
| BankOffset.LeadingPower | util_ind.cpp:328-336 | the power is at most the offset, and twice the power exceeds it unless the loop ran out |
| BankOffset.AdjustBankOffset | util_ind.cpp:309-353 | the result is a power of two in 32..1024, and the largest such whose banks hold at most two seconds; a play rate of 0 or less keeps the configured value |
| BankOffset.OffsetMonotone | util_ind.cpp:309-353 | the result is monotone in the play rate and antitone in the bank number, hence unique |
| PexEeprom.Pex8111.ReadConfig | tvb380v4.c:507-535 | the index register, or the control register with one step of the busy countdown |
| PexEeprom.Pex8111.WriteConfig | tvb380v4.c:507-513 | writing the index changes nothing else; writing data never changes the index, and performs a command on an idle controller |
| PexEeprom.Pex8111.WriteControl | tvb380v4.c:444-461 | what a command word does to the chip, by its chip select, write and read bits; on a busy controller the chip may end up in any state |
| PexEeprom.ControlWord | tvb380v4.c:336-470 | the read data, busy and width fields that the driver extracts are those the controller packed |
| PexEeprom.RegisterRead | tvb380v4.c:519-540 | returns the selected register, restores the index, and reads 0 outside the window |
| PexEeprom.RegisterWrite | tvb380v4.c:496-516 | restores the index and refuses offsets outside the window; performs the command when the controller is not busy |
| PexEeprom.CheckBusy | tvb380v4.c:476-493 | true if and only if fewer than 99999 polls still see the busy flag; nothing but the countdown changes |
| PexEeprom.DataWrite | tvb380v4.c:436-449 | shifts exactly one byte in, or none when the busy flag never clears before; fails only on a device that outlasts the polls |
| PexEeprom.DataRead | tvb380v4.c:451-474 | shifts exactly one byte out and returns it, or none when the busy flag never clears before; fails only on a device that outlasts the polls |
| PexEeprom.EepromWait | tvb380v4.c:417-435 | on a responsive device true if and only if the chip is ready within 200 polls, with one status frame for each poll and memory unchanged; the index is restored on any device |
| PexEeprom.PollOnce | tvb380v4.c:424-431 | one status frame, which counts the write in progress down and tells whether it has ended |
| PexEeprom.SendAddress | tvb380v4.c:335-351 | on a responsive device appends the address bytes of the width in use to the frame |
| PexEeprom.AddressReached | tvb380v4.c:341-351 | the chip decodes the sent bytes as the low 8 or 16 bits of the offset, for every width |
| PexEeprom.EepromRead | tvb380v4.c:321-365 | on a responsive device returns the two bytes at the address, low byte first, changes no byte, and sends exactly the wait frames and one read frame; a failure reads 0 |
| PexEeprom.EepromWrite | tvb380v4.c:367-415 | on a responsive device programs the low 16 bits at the address; exactly one write enable frame and one write frame follow the wait |
| PexEeprom.ProgramPair | tvb380v4.c:385-411 | one frame with opcode, address and two bytes programs the pair and clears the write enable latch |
| PexEeprom.WrittenReadsBack | tvb380v4.c:321-415 | a written pair reads back if and only if it does not cross a page, the page is the whole memory, or the next page already held the high byte |
| PexEeprom.OthersUnchanged | tvb380v4.c:367-415 | every byte but the two programmed ones keeps its value |
| PexEeprom.EvenOffsetStaysInPage | tvb380v4.c:367-415 | an even offset never crosses a page of even size, for every address width |
| PexEeprom.WriteThenRead | tvb380v4.c:321-415 | on a device within the poll limits, write then read yields the low 16 bits, and all other bytes keep their value |
| FpgaLoader.WriteBit | tvb380v4.c:100-112 | one low and one high clock write with the same data bit at one address, in both address spaces, with the command bits of the larger one |
| FpgaLoader.SendByte | tvb380v4.c:98-114 | extends the sampled bits by the eight bits of the byte, lowest first |
| FpgaLoader.BytesOfBits | tvb380v4.c:97-115 | regrouping the sent bits by eight gives the bytes back |
| FpgaLoader.ConfigureAltera | tvb380v4.c:87-116 | 16 writes a byte, data stable over each clock pair, and the sampled bits regroup to the buffer, for both address spaces |
| IqCapture.ReadCount | wrapdll.cpp:5281-5282 | the count after the byte swap is the top nibble of the byte that comes first in the file |
| IqCapture.CheckCount | wrapdll.cpp:5283-5306 | the patched predecessor test accepts exactly the steps of the cycle 1..15, and any count after 0 |
| IqCapture.ErrorCheck | wrapdll.cpp:5255-5309 | faultless if and only if all checked counts are continuous, otherwise the position of the first fault |
| IqCapture.CheckFile | wrapdll.cpp:5197-5311 | the verdict on a file, by the switch, its presence, its size and the configured limit: files under 16 megabytes pass unread, otherwise the first fault within the limit is reported |
| IqCapture.FaultPosition | wrapdll.cpp:5295-5306 | the reported position is the offset in the file behind the first faulty word |
| IqCapture.FaultIsUnique | wrapdll.cpp:5295-5306 | no other position can be reported |
| IqCapture.CheckedWords | wrapdll.cpp:5202-5251 | how many words are checked, for every file size and configured limit |
| IqCapture.WhenNothingIsChecked | wrapdll.cpp:5236-5251 | a file of 16 megabytes or more has no word checked if and only if the configured size is 1 to 16 megabytes, or the whole file counts and is less than one word longer |
| IqCapture.ZerosThenCycle | wrapdll.cpp:5255-5309 | the accepted sequences are exactly zeros, possibly none, followed by a run of the cycle |
| IqCapture.MissedLosses | wrapdll.cpp:5255-5309 | removing words from an accepted sequence is missed exactly when nothing follows, only zeros precede, or their number is a multiple of 15 |
| TmccInfo.Unpack | wrapdll.cpp:5680-5704 | the fields are in range and pack to the low 19 bits of the word |
| TmccInfo.FieldsOfWord | wrapdll.cpp:5680-5704 | which bits of the word each of the eight fields takes |
| TmccInfo.PositivePart | wrapdll.cpp:5541-5544 | a layer without a positive rate adds nothing |
| TmccInfo.PackIsInjective | wrapdll.cpp:5680-5704 | two settings of the eight fields never share a word |
| TmccInfo.DecodeWord | wrapdll.cpp:5680-5704 | the nineteen halving passes decode the absolute value of every word |
| TmccInfo.UnpackInvertsPack | wrapdll.cpp:5680-5704 | decoding inverts packing, whatever the word holds above its 19 bits |
| TmccInfo.CheckSegments | wrapdll.cpp:5848-5896 | the validity check accepts exactly the segment totals of the broadcast type and partial flag |
| TmccInfo.UpdateRemuxInfo | wrapdll.cpp:5618-5896 | 1 if and only if the file exists and its segments fit; the layers are the decoded words |
| TmccInfo.HaveTmccInformation | wrapdll.cpp:5527-5611 | 1 if and only if the segments fit and the total bit rate is the sum of the positive layer rates |
| TmccInfo.HaveImpliesUpdate | wrapdll.cpp:5527-5896 | for an existing file the first acceptance implies the second, and only the bit rates can part them |
| BoardGroups.FindBoards | mainutil.cpp:14785-14861 | for any distinct groups that the library reports for the real boards, initialization ends in a configuration on which the play control relies |
| BoardGroups.EnterMember | mainutil.cpp:14838-14857 | one slot is entered: its owner and type, and its bit in the map of the group, with no other bit disturbed |
| BoardGroups.EnterGroup | mainutil.cpp:14836-14857 | the map of a real board has exactly the bits of the reported slots, and every other slot of the list becomes virtual |
| BoardGroups.BitAdded | mainutil.cpp:14855 | adding a power of two sets exactly one bit that was clear |
| BoardGroups.EnteredIsValid | mainutil.cpp:14785-14861 | completely entered groups are valid: maps agree with owners, and shared groups count more than one |
| PlayControl.OrdinaryIsValid | wrapdll.cpp:209-213 | a TVB594 with one virtual slot and 22 empty slots is valid, and safe before anything plays |
| PlayControl.Controller.StartPlaying | wrapdll.cpp:4001-4240 | the flag of the slot after each outcome of an attempt to play, and its selection exactly when it starts on a shared output |
| PlayControl.Controller.StopPlaying | wrapdll.cpp:5026-5112 | clears the flag of the slot and no other; the output goes back to a playing owner, else to the playing members in order (virtual slot) or to the lowest one (real slot), and nowhere when none plays |
| PlayControl.StopHandsOver | wrapdll.cpp:5051-5111 | what a stop selects, from the owners and flags alone |
| PlayControl.MembersAreComplete | wrapdll.cpp:5072-5085 | the playing members of a map come in ascending order and none is missing |
| PlayControl.SelectedStream | wrapdll.cpp:5098-5104 | the selected value carries the stream number, twice in two bits for TVB594 |
| PlayControl.Controller.SelectAllPlaying | wrapdll.cpp:5072-5085 | selects every playing member of the owner's map, in slot order |
| PlayControl.Controller.SelectFirstPlaying | wrapdll.cpp:5094-5108 | selects the first playing member only |
| PlayControl.Controller.StartRecording | wrapdll.cpp:4773-4797 | a successful recording stops and unpauses exactly the playing members of the group of a real shared slot, and selects nothing |
| PlayControl.Controller.BringToFront | mainutil.cpp:7155-7164 | a playing board that comes to the front is selected again |
| PlayControl.StopKeepsInv | wrapdll.cpp:5051-5111 | after a stop the output carries a playing member of every shared group in which one plays |
| PlayControl.RecordKeepsInv | wrapdll.cpp:4773-4797 | a recording keeps the invariant, for real and virtual slots |
| PlayControl.RecordStopsGroup | wrapdll.cpp:4776-4795 | a successful recording on the real slot leaves no member of its group playing |
| PlayControl.StepKeepsInv | wrapdll.cpp:4203-4237 | every start, stop, recording and focus keeps the invariant of the shared outputs |
| PlayControl.EveryRunIsSafe | wrapdll.cpp:5026-5112 | after every run from the initial state, a group with a playing member has a playing member's stream on its output |
| PlayControl.RecordFileFailureBreaks | wrapdll.cpp:4078-4093 | a failing record file keeps the invariant if and only if another member plays or the slot was selected last |
| PlayControl.RecordFileFailureBreaksOrdinary | wrapdll.cpp:4078-4093 | on that machine the first recording attempt whose file fails breaks the invariant |
| PlayControl.FocusRepairs | mainutil.cpp:7155-7164 | bringing that slot to the front restores the invariant |
| RegistryText.PrintedLine | util_dep.cpp:999-1017 | a printed line of at most 148 characters is read back whole, and the next read starts behind it |
| RegistryText.AllVisible | util_dep.cpp:960-992 | no entry is hidden exactly when every line has at least 3 characters and none but the last has 149 |
| RegistryText.FindIsLookup | util_dep.cpp:943-996 | the lookup in the file is the lookup in the visible entries: the first line with the name counts, values may contain '=' |
| RegistryText.FindInStore | util_dep.cpp:943-996 | with lines of 3 to 148 characters the file lookup is the lookup in the whole store |
| RegistryText.ShortLineHidesRest | util_dep.cpp:961 | a line of one or two characters hides every later entry |
| RegistryText.FullLineHidesRest | util_dep.cpp:999-1017 | a line of 149 characters hides every later entry |
| RegistryText.LookupAppend | util_dep.cpp:964-988 | a later line with a name already present changes nothing |
| Registry.NumberOfDecimal | util_dep.cpp:239-244 | the printed digits of a number stand for that number |
| Registry.NumberOfHalves | util_dep.cpp:131-151 | the two halves of the digits recombine to the number |
| Registry.SplitNumber | util_dep.cpp:131-152 | reading any text of up to 18 characters gives the sum of its two halves as `atoi` reads them, and for digits the number of the whole string, modulo the range of unsigned long |
| Registry.AtoiReads | util_dep.cpp:140-150 | `atoi` skips blanks, takes one sign and stops at the first other character |
| Registry.HalvesValueIs | util_dep.cpp:131-151 | the shorter half is scaled by one factor of ten for each character of the other |
| Registry.HalvesOfDigits | util_dep.cpp:131-151 | for every digit string the sum of the halves is its number |
| Registry.RegistryFile.SetString | util_dep.cpp:264-275 | appends one entry to the store |
| Registry.RegistryFile.SetUnsignedLong | util_dep.cpp:239-245 | appends the decimal digits of the low 32 bits |
| Registry.RegistryFile.GetALine | util_dep.cpp:999-1017 | one read of at most 149 characters, cut at the first line end |
| Registry.RegistryFile.GetLineAndMatchedValue | util_dep.cpp:943-996 | the scan from the start of the file finds what the lookup on characters finds |
| Registry.RegistryFile.GetString | util_dep.cpp:199-217 | the value of the first visible entry with the name, otherwise the default |
| Registry.RegistryFile.GetUnsignedLong | util_dep.cpp:117-153 | the default when nothing is found, otherwise what the halves of the text add up to, which for digits is their number |
| Registry.RegistryFile.StoreAndReload | util_dep.cpp:117-245 | a number stored under a new name reloads modulo 2 to the 32 |
| RowChunks.RestoreInvertsSubstitute | util_dep.cpp:732-739 | the substitution can be undone if and only if the text has none of '*', '[' and ']' |
| RowChunks.SubstitutedText | util_dep.cpp:732-739 | blanks, CR and LF become '*', '[' and ']', and no other character changes |
| RowChunks.Place | util_dep.cpp:732-745 | one character is substituted and stored in its row, and a full row is terminated |
| RowChunks.Chunk | util_dep.cpp:723-748 | all writes stay in their rows, and the rows hold the substituted text with a terminator behind each |
| RowChunks.WritesFit | util_dep.cpp:730-748 | all writes stay inside the rows if and only if the text is shorter than 250 times the rows |
| RowChunks.RowsConcatenate | util_dep.cpp:723-748 | the C strings in the rows concatenate to the text |
| RowChunks.GetRemuxInfo | util_dep.cpp:719-749 | nine rows concatenate to the substituted text, for every text shorter than 9 times 250 |
| RowChunks.GetT2miParameters | util_dep.cpp:688-718 | seventeen rows hold the 4096 substituted bytes and end with a terminator |
| LicenseNumber.WriteLnEeprom | util_ind.cpp:6292-6350 | the writes are the magic word, eight words of four digits and the two checksum words, in this order |
| LicenseNumber.NumberIsRecoverable | util_ind.cpp:6309-6334 | the upper-cased number is recoverable from the eight words |
| LicenseNumber.HexDigitOfValue | util_ind.cpp:6311-6315 | the value of a digit is its place in 0123456789ABCDEF, in either case |
| LicenseNumber.ImageAddresses | util_ind.cpp:6299-6349 | the eleven words go to consecutive even addresses from 0x400, magic word, data and checksum |
| LicenseNumber.ChecksumRecombines | util_ind.cpp:6335-6349 | the two checksum words recombine to 0xA720 plus the sum of the words |
| LicenseNumber.ChecksumDetectsOneWord | util_ind.cpp:6321-6349 | replacing one data word keeps the checksum if and only if the word stays the same |

## Left out

- Rounding errors of `double`: all rates are exact reals, truncated and rounded where the program does.
- Overflow of 32-bit `long`, also in `gnSymbolRate * 2`: numbers are unbounded.
- The 288 reserved tone positions: the carrier map is proved for any list, which is a parameter.
- Settings outside the tables (a guard index other than 0 or 1, code rate or modulation indices without an entry): the program divides by zero or reads unset variables there.
- The STANDALONE override of the bank offset, and bitrates of QAM_B, DVB-T, ATSC and the other modes, which are single formulas or constants.
- `getFreqIndex`, the DAC offsets of `Configure_Modulator` and the channel tables: finite tables.
- Registry.SplitNumber: for texts of up to 18 characters; a longer one overruns the two buffers, and `GetUnsignedLong` then promises nothing about the value.
- RegistryText.FindIsLookup: lines of 150 or more characters, which the reader splits, and names that contain '=' are outside it; `Find` itself models the reader on any text.
- Registry.RegistryFile.StoreAndReload: for names of at most 137 characters, so that any number fits the line.
- Float and signed integer entries of the registry, key deletion, and the WIN32 registry.
- PexEeprom.Pex8111.WriteControl: what a command does while the controller is busy is not specified anywhere; the model lets it do anything to the chip, so that on an unresponsive device only the index, the result codes and the first transfer are known.
- PexEeprom.Pex8111.ReadConfig: registers other than the index and the EEPROM control register read as arbitrary values.
- RowChunks.Chunk: for texts with room for the last terminator, which the program does not check; `WritesFit` shows that this is exactly when it stays inside its rows.
- RowChunks.RowsConcatenate: for text without NUL; a NUL inside the fixed 4096-byte buffer ends the C string of its row early.
- LicenseNumber.WriteLnEeprom: the string has at least the 32 characters that the loop reads.
- IqCapture.CheckFile: progress display, and files that are present but fail to open or read.
- BoardGroups.FindBoards: the library reports distinct slots, each for one board, and lists the board itself; the registry settings restored for each board are not modelled.
- TmccInfo: the text that describes the layers and the copy into `tmccInfo`.
- PlayControl: library calls are outcomes of an action; `gnVLCRunning`, LEDs and clock settings, the Linux `Start_Playing`, the second focus handler (`mainutil.cpp:17873-17882`, which also covers boards 11 and 12), files, threads and user interface are not modelled.
- PlayControl.EveryRunIsSafe: starts happen only on slots that do not play, as the user interface allows, and the record file of RECV_IP_STREAM_REC mode can be created; RecordFileFailureBreaks treats the other case.
