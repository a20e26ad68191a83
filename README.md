# TDC-GPX2 driver on a Pico, modelled in Dafny

The program (`designlab.c`) configures a TDC-GPX2 time-to-digital converter over SPI and then polls it for measurements. It keeps a 17-byte image of the chip's configuration registers and changes it through field setters. An operator dialogue decides which fields are set. A validator checks the image before it is written. The bring-up in `main` resets the chip, runs the dialogue until the validator accepts, writes the image, reads it back and starts measuring. An endless loop then services a pending REFCLK reset, handles one operator command (pause, resume, REFCLK reset, reboot), and reads and prints the results of the four channels while measuring.

The project has six modules:

- `Registers` (registers.dfy): the image and its fields, the setters and converters as functions of the image, and the run-time bits of byte 0.
- `Spi` (spi.dfy): an abstract bus. A class `Bus` records the chip-select frames the host produces; each frame is a list of sent and read bytes. What the chip shifts out is a given stream of bytes.
- `Protocol` (protocol.dfy): the chip transactions as methods over a `Bus`, each proved against a frame function. It also holds the big-endian decoding of the 24-byte results read and its inverse.
- `Validator` (validator.dfy): the validator as a function from the image to the ordered list of findings and the verdict. One method per group of checks, written like the program's straight-line checks, is proved equal to that function and to report exactly the findings whose condition holds of the decoded fields.
- `Control` (control.dfy): one iteration of the acquisition loop as a function of the state (image, `measure`, `clk_reset`) and of the typed character. Its result is the next state and the chip transactions planned, in order.
- `Driver` (driver.dfy): the program's globals as a class `Gpx2`. The image array, the `pins` buffer, the result arrays and the two flags are updated in place by the setters, the dialogue, the bring-up and one loop iteration. Each of these is proved against the functions above. `Perform` gives the frames a planned list of chip transactions leaves on the bus for a given chip reply stream, up to and including the first write whose read-back differs; the bring-up and the loop methods are proved to record exactly those frames.

Two readings of the validator are modelled, `AsWritten` and `Intended`; they differ in two places (see Findings). Everything else uses the program as written.

Where prose descriptions of the program and its code differ, the model follows the code:

- Pausing SETS bit 6 of byte 0, the "pins disabled" bit; resuming clears it. Check 9 treats that bit set as an error, which agrees with this meaning.
- Check 14 compares the two-bit HIRES field with 2, the register code of the 4x mode. So it does test 4x, as its message says.
- A read-back that differs makes the program wait for 'q', whatever happens to the chip. That is the `Halted` outcome here.

## Model

| member | source | states |
|---|---|---|
| Registers.PinMask | designlab.c:46-57 | bit i of the nibble built from the answers is set exactly when answer i is non-zero; no bit above the nibble is set |
| Registers.SetInputPins | designlab.c:46-58 | only bits 0-3 of byte 0 change, and bit i of PIN_ENA is set exactly when STOP answer i is non-zero |
| Registers.SetRefclk | designlab.c:59-64 | only bit 4 of byte 0 changes, and it holds the argument's lowest bit |
| Registers.SetInputProcessing | designlab.c:65-77 | only bits 0-3 of byte 1 change, and bit i of HIT_ENA is set exactly when HIT answer i is non-zero |
| Registers.ChannelCombineModeConverter | designlab.c:84-95 | 'D'/'d' gives pulse distance, 'W'/'w' pulse width, and every other character no combining (both directions) |
| Registers.SetChannelCombine | designlab.c:96-100 | only bits 4-5 of byte 1 change, and they hold the mode's code |
| Registers.HiresModeConverter | designlab.c:108-119 | 2 gives 2x, 4 gives 4x, and every other number off (both directions) |
| Registers.SetHires | designlab.c:121-129 | only bits 6-7 of byte 1 change, and they hold the mode's code |
| Registers.SetCommonFifo | designlab.c:130-135 | only bit 6 of byte 2 changes, and it holds the argument's lowest bit |
| Registers.SetBlockwiseFifo | designlab.c:136-141 | only bit 7 of byte 2 changes, and it holds the argument's lowest bit |
| Registers.SetRefclkDivisions | designlab.c:143-154 | bytes other than 3, 4 and 5 and the upper nibble of byte 5 are kept, and the 20-bit field decodes to the divisor mod 2^20 |
| Registers.PeriodPs | designlab.c:156-160 | the period is below 2^32, and from 233 Hz on it is the exact floor of 10^12 / freq; `ComputeDivisionsFromFreq` is this value as a 32-bit integer |
| Registers.DivisorFromFrequency | designlab.c:143-160 | storing the divisor a frequency gives leaves bytes 0-2 and 6-16 and byte 5's upper nibble alone, and the field reads back as the divisor mod 2^20 |
| Registers.DivisionsAt5MHz | designlab.c:156-160 | 5 MHz gives 200000 ps, which the field stores unchanged |
| Registers.DivisionsAt1MHz | designlab.c:156-160 | 1 MHz gives 1000000 ps, which the field stores unchanged |
| Registers.DivisionsOverflowField | designlab.c:143-160 | 953674 Hz gives 2^20 ps, which the 20-bit field stores as 0 |
| Registers.DivisionsTruncated | designlab.c:156-160 | below 233 Hz the 32-bit return value drops the quotient's high bits: 1 Hz gives 10^12 mod 2^32 |
| Registers.SetRefclkByXosc | designlab.c:161-166 | only bit 7 of byte 7 changes, and it holds the argument's lowest bit |
| Registers.SetCmosInput | designlab.c:167-172 | only bit 2 of byte 16 changes, and it holds the argument's lowest bit |
| Registers.PinsDisable | designlab.c:253-256 | only bit 6 of byte 0 changes, and it becomes 1 |
| Registers.PinsEnable | designlab.c:257-260 | only bit 6 of byte 0 changes, and it becomes 0 |
| Registers.RefclkResetPulse | designlab.c:261-264 | only bit 7 of byte 0 changes, and it becomes 1 |
| Registers.RefclkResetUnpulse | designlab.c:265-268 | only bit 7 of byte 0 changes, and it becomes 0 |
| Registers.CombineByCharacter | designlab.c:84-100 | after the setter is driven by the typed character, bits 4-5 of byte 1 are 1 for 'D'/'d', 2 for 'W'/'w' and 0 otherwise; the rest of byte 1 and all other bytes are kept |
| Registers.HiresByNumber | designlab.c:108-129 | after the setter is driven by the typed number, bits 6-7 of byte 1 are 1 for 2, 2 for 4 and 0 otherwise; the rest is kept |
| Registers.DefaultImageFields | designlab.c:26-31 | the fields of the compiled-in image: STOP1 and HIT1 on, REFCLK on, divisor 200000, CMOS input on, XOSC off, run-time bits clear |
| Registers.DisableThenEnable | designlab.c:253-260 | disabling and then enabling the pins restores an image whose bit 6 was clear |
| Spi.Mosi | designlab.c:285-295 | the host-to-chip bytes of a frame: each sent byte, and the dummy 0x00 for each read |
| Spi.MosiOfSends | designlab.c:285-288 | sending bytes puts exactly those bytes on the host-to-chip line |
| Spi.MisoOfSends | designlab.c:285-288 | a frame of sends reads nothing |
| Spi.MisoOfReceives | designlab.c:290-295 | a frame of reads reads exactly those bytes |
| Spi.MisoAppend | designlab.c:290-295 | the bytes read by two frame parts are those of the first, then those of the second |
| Spi.Bus.IncomingSplit | designlab.c:290-295 | reading n and then m bytes reads the next n + m bytes |
| Spi.Bus.constructor | designlab.c:575-578 | a bus with chip select high, no frames and nothing read yet |
| Spi.Bus.CsLow | designlab.c:275-278 | selects the chip and starts an empty frame |
| Spi.Bus.CsHigh | designlab.c:279-282 | deselects the chip and completes the frame in progress |
| Spi.Bus.SendByte | designlab.c:285-288 | appends one sent byte to the frame in progress |
| Spi.Bus.ReadByte | designlab.c:290-295 | returns the chip's next byte and appends it to the frame in progress |
| Protocol.FirstMismatch | designlab.c:322-331 | the images agree below the index, and differ at it unless it is 17 |
| Protocol.WriteConfigWire | designlab.c:298-312 | the write frame puts exactly [0x80] followed by the 17 image bytes on the wire, and reads nothing |
| Protocol.FirstMismatchExact | designlab.c:322-334 | the compare runs through all 17 bytes exactly when the read-back equals the image |
| Protocol.VerifyStopsAtFirstMismatch | designlab.c:322-331 | a first mismatch at index k ends the frame after the opcode and k + 1 reads |
| Protocol.WriteThenVerifyEcho | designlab.c:298-335 | a chip that echoes the written bytes passes the read-back |
| Protocol.Be24Bytes | designlab.c:364-373 | a 24-bit value is sent as three bytes |
| Protocol.Be24Value | designlab.c:364-373 | the decode is b0 * 65536 + b1 * 256 + b2, always below 2^24; [0,0,1] gives 1 and [FF,FF,FF] gives 16777215 |
| Protocol.Be24RoundTrip | designlab.c:364-373 | decoding inverts the encoding of any value below 2^24, and encoding inverts decoding |
| Protocol.References | designlab.c:387-393 | a results read holds four reference indices |
| Protocol.Stops | designlab.c:387-393 | a results read holds four stop values |
| Protocol.DecodeResults | designlab.c:376-395 | four reference indices and four stop values come out of 24 bytes |
| Protocol.ChannelBytes | designlab.c:387-393 | one channel is six bytes |
| Protocol.EncodeResults | designlab.c:387-393 | a measurement is encoded as 24 bytes |
| Protocol.ChannelDecodeEncode | designlab.c:387-393 | a channel's six bytes decode to the reference index and stop value they encode |
| Protocol.ChannelEncodeDecode | designlab.c:387-393 | channel ch decoded from bytes 6ch..6ch+5 and re-encoded gives back those bytes, and both values are below 2^24 |
| Protocol.EncodedChannel | designlab.c:387-393 | channel ch of an encoded measurement occupies bytes 6ch..6ch+5 |
| Protocol.DecodeEncodeResults | designlab.c:376-395 | decoding the encoding of a 24-bit measurement gives it back |
| Protocol.EncodeDecodeResults | designlab.c:376-395 | any 24 bytes are the encoding of what they decode to |
| Protocol.PowerReset | designlab.c:585-588 | one frame holding the single opcode 0x30 |
| Protocol.WriteConfig | designlab.c:298-312 | appends the write frame of the array's image, reads nothing, and returns true |
| Protocol.VerifyConfig | designlab.c:315-335 | returns true exactly when the 17 bytes read equal the image; the frame is the opcode 0x40 and the reads up to and including the first mismatch |
| Protocol.StartMeasurement | designlab.c:355-361 | one frame holding the single opcode 0x18 |
| Protocol.Read24Bit | designlab.c:364-373 | reads three bytes inside the current frame and returns their big-endian value |
| Protocol.ChannelShift | designlab.c:387-393 | channel ch of a read at p0 is the six bytes from p0 + 6ch |
| Protocol.ResultsFrameStep | designlab.c:387-393 | the results frame after ch + 1 channels is that after ch channels plus six more reads |
| Protocol.ReadPair | designlab.c:389-392 | channel ch's two 24-bit values, from the six bytes that continue the frame |
| Protocol.ReadChannel | designlab.c:387-393 | after channel ch, the first ch + 1 entries of both arrays are the decoded values |
| Protocol.ReadResults | designlab.c:376-395 | one frame opened by 0x68 with 24 reads; afterwards the arrays hold exactly the decoded reference indices and stop values |
| Validator.Divisor | designlab.c:408-411 | the decoded divisor is below 2^20, and zero exactly when the field is zero |
| Validator.Decode | designlab.c:400-413 | the decoded fields are in their ranges: four-bit enables, two-bit codes, single bits, a 20-bit divisor |
| Validator.Report | designlab.c:416-554 | reporting keeps the flag equal to "no ERROR reported" |
| Validator.When | designlab.c:416-554 | a check keeps the flag equal to "no ERROR reported" |
| Validator.StopChecks | designlab.c:417-423 | check 1 keeps the flag equal to "no ERROR reported" |
| Validator.HiresRejected | designlab.c:434-438 | as written the condition holds for every HIRES value; corrected it holds exactly for the undefined code 3 |
| Validator.FieldBlock | designlab.c:424-443 | checks 2 to 5 keep the flag equal to "no ERROR reported" |
| Validator.FieldBlockReports | designlab.c:424-443 | checks 2 to 5 add exactly the findings whose condition holds: REFCLK off, combine code 3, HIRES (always as written), common FIFO without blockwise |
| Validator.RangeBlock | designlab.c:444-454 | check 6 keeps the flag equal to "no ERROR reported" |
| Validator.RangeReports | designlab.c:444-454 | check 6 adds exactly one of zero, below 10000, above 1000000, or nothing |
| Validator.CmosBlock | designlab.c:455-465 | check 7 keeps the flag equal to "no ERROR reported" |
| Validator.CmosReports | designlab.c:455-465 | check 7 adds exactly the CMOS findings whose condition holds: no STOP pins, no REFCLK pin |
| Validator.DivisorBlock | designlab.c:444-465 | checks 6 and 7 keep the flag equal to "no ERROR reported" |
| Validator.DivisorBlockReports | designlab.c:444-465 | checks 6 and 7 add exactly the findings of DivisorExpected |
| Validator.RefclkFrequency | designlab.c:466-467 | as written the frequency is below 2^32; corrected, and as written from a divisor of 233 on, it is the floor of 10^12 / divisor |
| Validator.ClockBlock | designlab.c:466-480 | check 8 and the clock-source checks keep the flag equal to "no ERROR reported" |
| Validator.ClockBlockReports | designlab.c:466-480 | check 8 and the clock-source checks add exactly the findings of ClockExpected |
| Validator.PinBlock | designlab.c:481-498 | checks 9 to 11 keep the flag equal to "no ERROR reported" |
| Validator.PinBlockReports | designlab.c:481-498 | checks 9 to 11 add exactly the findings of PinExpected: the master bit, STOP1/2 and HIT1/2 for the combining modes |
| Validator.HiresBlock | designlab.c:501-512 | checks 13 and 14 keep the flag equal to "no ERROR reported" |
| Validator.HiresBlockReports | designlab.c:501-512 | checks 13 and 14 add exactly the findings of HiresExpected |
| Validator.ModeBlock | designlab.c:513-528 | checks 15 to 18 keep the flag equal to "no ERROR reported" |
| Validator.ModeBlockReports | designlab.c:513-528 | checks 15 to 18 add exactly the findings of ModeExpected |
| Validator.RefclkNeedsBlock | designlab.c:529-537 | checks 19 and 20 keep the flag equal to "no ERROR reported" |
| Validator.RefclkNeedsReports | designlab.c:529-537 | checks 19 and 20 add exactly HIRES without REFCLK and pulse distance with STOP3 or STOP4 when those hold |
| Validator.DivisorNeedsBlock | designlab.c:542-554 | checks 22 to 24 keep the flag equal to "no ERROR reported" |
| Validator.DivisorNeedsReports | designlab.c:542-554 | checks 22 to 24 add exactly the coarse-divisor and no-REFCLK findings whose condition holds |
| Validator.ResolutionBlock | designlab.c:529-554 | checks 19 to 24 keep the flag equal to "no ERROR reported" |
| Validator.ResolutionBlockReports | designlab.c:529-554 | checks 19 to 24 add exactly the findings of ResolutionExpected |
| Validator.EarlyChecks | designlab.c:416-465 | after checks 1 to 7 the flag is exactly "no ERROR so far" |
| Validator.Run | designlab.c:416-559 | on completion the verdict is true exactly when no finding is an ERROR; the run stops at check 8's division exactly when the divisor is 0 |
| Validator.Validate | designlab.c:396-559 | the same for an image: verdict iff no ERROR, and a division by zero iff the divisor field is 0 |
| Validator.StopPinChecks | designlab.c:417-423 | the loop over the four channels reports check 1 as the specification function does |
| Validator.FieldChecks | designlab.c:424-443 | checks 2 to 5 in order: a finding is added exactly when its FieldExpected condition holds of the decoded fields, and the flag stays "no ERROR reported" |
| Validator.DivisorChecks | designlab.c:444-465 | checks 6 and 7: a finding is added exactly when its DivisorExpected condition holds (one range finding at most), and the flag stays "no ERROR reported" |
| Validator.ClockChecks | designlab.c:466-480 | for a non-zero divisor, check 8 and the clock-source checks add a finding exactly when its ClockExpected condition holds, and the flag stays "no ERROR reported" |
| Validator.PinChecks | designlab.c:481-498 | checks 9 to 11 add a finding exactly when its PinExpected condition holds (check 11 never on decoded fields), and the flag stays "no ERROR reported" |
| Validator.HiresChecks | designlab.c:501-512 | checks 13 and 14 add a finding exactly when its HiresExpected condition holds (code 2, 4x, counts as the 4x case), and the flag stays "no ERROR reported" |
| Validator.ModeChecks | designlab.c:513-528 | checks 15 to 18 add a finding exactly when its ModeExpected condition holds (the 4 MHz bus always fails check 18), and the flag stays "no ERROR reported" |
| Validator.ResolutionChecks | designlab.c:529-554 | checks 19 to 24 add a finding exactly when its ResolutionExpected condition holds, and the flag stays "no ERROR reported" |
| Validator.ValidateInput | designlab.c:396-560 | reading the array gives the validation of its image: every check is reported exactly when its condition holds of the decoded fields, and on completion the verdict is true iff no ERROR |
| Validator.StopUnmatchedBits | designlab.c:417-423 | check 1's mask test on channel i is "STOP bit i set and HIT bit i clear" |
| Validator.StopChecksReport | designlab.c:417-423 | check 1 over n channels reports exactly the unmatched channels below n |
| Validator.MaskBits | designlab.c:487-537 | the masks of checks 10, 11 and 20 as bit tests on a four-bit field; 0xF0 leaves nothing |
| Validator.TruncationKeepsQuotient | designlab.c:467 | from a divisor of 233 on, the 32-bit store keeps the quotient and the two readings of the frequency agree |
| Validator.LowFrequencyIffCoarse | designlab.c:467-470 | the full quotient is below 20 MHz exactly when the divisor exceeds 50000 |
| Validator.UnreachedChecks | designlab.c:466-467 | a zero divisor ends the run with the findings of checks 1 to 7 and none from check 8 on |
| Validator.ReportsExactlyExpected | designlab.c:416-554 | every check is reported exactly when its condition holds of the decoded fields |
| Validator.RunReportsExactly | designlab.c:416-554 | the same, for all checks at once |
| Validator.ErrorFails | designlab.c:416-559 | one ERROR among the findings makes the verdict false |
| Validator.ExactReportFacts | designlab.c:416-554 | a findings list that reports exactly the expected checks has the per-check behaviour listed below |
| Validator.AsWrittenRejectsEverything | designlab.c:435-438 | as written, check 4 fires on every field value and the verdict is false |
| Validator.AsWrittenRejectsEveryImage | designlab.c:396-438 | as written, the validator accepts no image |
| Validator.IntendedHiresCheck | designlab.c:435-438 | corrected, check 4 fires exactly for the undefined code 3 |
| Validator.ClockSourceChecks | designlab.c:472-480 | with a non-zero divisor a clock-source ERROR occurs exactly when XOSC == REFCLK_ENA |
| Validator.DivisorRange | designlab.c:445-454 | the zero-divisor ERROR occurs exactly when the run stops at the division; below 10000 and above 1000000 warn exactly in their ranges, so at most one fires |
| Validator.HitBeyondStop4Never | designlab.c:495-498 | check 11 never fires, because the HIT_ENA field is decoded to four bits (line 402) |
| Validator.StopPinReport | designlab.c:417-423 | channel ch gets a check-1 ERROR exactly when STOP bit ch is set and HIT bit ch is clear |
| Validator.DefaultImageValidation | designlab.c:26-31 | as written the compiled-in image is rejected for check 4 with two warnings; corrected it passes with the low-frequency and coarse-divisor warnings |
| Validator.DefaultImageDecodes | designlab.c:400-413 | the compiled-in image (lines 26-31) decodes to STOP1/HIT1, REFCLK on, divisor 200000, CMOS input on |
| Validator.TruncatedFrequencyWarns | designlab.c:466-470 | as written a 232 ps divisor (4.31 GHz) draws the low-frequency warning; corrected it does not |
| Validator.IntendedFrequencyWarning | designlab.c:466-470 | corrected, check 8 warns exactly when the divisor exceeds 50000 ps |
| Validator.FrequencyReadingsAgree | designlab.c:466-470 | from a divisor of 233 on, both readings warn alike |
| Control.Codes | designlab.c:298-395 | every chip transaction opens at least one frame |
| Control.Service | designlab.c:614-620 | a pending reset clears bit 7 and nothing else, keeps `measure`, clears the flag, and plans the write of the new image and a start; without one nothing happens |
| Control.Command | designlab.c:622-645 | the iteration reboots exactly on 'q'/'Q', and a command never reads results |
| Control.ControlStep | designlab.c:612-666 | the iteration reboots exactly on 'q'/'Q', after the reset's actions only |
| Control.ActionOpcodesAppend | designlab.c:612-666 | the opcodes of two plans in sequence are those of the first, then those of the second |
| Control.OpcodeValues | designlab.c:16-20 | a write-and-verify opens 0x80 then 0x40, a start 0x18, a results read 0x68 |
| Control.PauseStep | designlab.c:623-628 | 'p'/'P' stops measuring, sets bit 6 only, writes and verifies, and reads no results |
| Control.ResumeStep | designlab.c:629-635 | 'r'/'R' measures, clears bit 6 only, writes, verifies, starts, then reads results |
| Control.ClockResetStep | designlab.c:636-641 | 'c'/'C' sets bit 7 only, writes and verifies, sets `clk_reset`, and reads results if measuring |
| Control.PendingResetFirst | designlab.c:614-620 | a pending reset's write and start come first, whatever the command, and leave no reset pending unless the command is 'c' |
| Control.ClockResetRoundTrip | designlab.c:614-641 | 'c' followed by a non-command gives back the original state, after a write and a start |
| Control.OtherCharacter | designlab.c:622-645 | any other character, or none, leaves the state as it was and plans only a results read when measuring |
| Control.ReadIffMeasure | designlab.c:646-663 | results are read exactly when the iteration ends measuring, and last |
| Control.MeasureFollowsCommands | designlab.c:622-645 | only 'p' and 'r' change `measure` |
| Control.PauseThenResume | designlab.c:623-635 | pausing and then resuming restores the image and measures again |
| Control.ChipInSync | designlab.c:612-666 | the last image written in an iteration is the state's new image |
| Control.LastWrittenAppend | designlab.c:612-666 | the last image written over two plans is that of the second, or else that of the first |
| Driver.PinAnswersFields | designlab.c:183-202 | the STOP, REFCLK and HIT answers read back as given; the run-time bits and bytes 2-16 are kept |
| Driver.ModeAnswersFields | designlab.c:210-229 | the combine, HIRES and FIFO answers read back as converted; the other bits are kept |
| Driver.ClockAnswersFields | designlab.c:233-244 | the divisor, XOSC and CMOS answers read back as given; the other bits are kept |
| Driver.ConfiguredFields | designlab.c:173-248 | every field the dialogue sets reads back as answered; the run-time bits of byte 0 and the untouched registers keep their values |
| Driver.Shown | designlab.c:652-662 | the printed channels are exactly those whose `pins` entry is non-zero |
| Driver.ShownFollowsHitAnswers | designlab.c:183-202 | with only STOP1 and only HIT_ENA2 answered, the chip measures STOP1 but the print loop (lines 652-662) shows channel index 1 (CH2) |
| Driver.DialoguesExtend | designlab.c:592-595 | one more dialogue extends the recorded list of images |
| Driver.OpcodesAppend | designlab.c:298-395 | the opcodes of two frame lists in sequence |
| Driver.PerformOne | designlab.c:298-395 | one action's frames are as many as its opcodes, the read position only advances, and only a write whose 17 read-back bytes differ from its image disagrees |
| Driver.Perform | designlab.c:336-352 | a run of actions never moves the read position back; when it agrees and what it leaves on the bus are stated by PerformAgreed, PerformAppend and PerformStops |
| Driver.PerformAgreed | designlab.c:336-352 | a run agrees exactly when each planned write reads back as written, at the position the run has reached by then |
| Driver.PerformAppend | designlab.c:336-352 | performing two plans in turn is performing the joined plan; the second runs only if every read-back of the first agreed |
| Driver.PerformSingle | designlab.c:298-395 | a plan of one action records that action's frames |
| Driver.PerformChain | designlab.c:612-666 | frames recorded for one plan and then, from where it ended, for another are those of the joined plan |
| Driver.PerformStops | designlab.c:343-350 | after a read-back that differs nothing more reaches the bus, whatever else was planned |
| Driver.OpcodesOne | designlab.c:298-395 | the frames of an action open with its opcodes |
| Driver.PerformOpcodes | designlab.c:298-395 | a run whose read-backs all agreed opens its frames with the planned opcodes |
| Driver.ChipImageAppend | designlab.c:298-312 | the image held after two frame lists is that of the second, starting from the image held after the first |
| Driver.ChipImageOne | designlab.c:298-312 | the chip takes an image from an action's frames exactly when the action is a write of that image |
| Driver.PerformInSync | designlab.c:298-352 | a run whose read-backs all agreed leaves the chip holding the last image the plan writes |
| Driver.IterationInSync | designlab.c:612-666 | the frames an iteration whose read-backs all agreed appends to the bus record leave the chip holding the driver's new image |
| Driver.Gpx2.constructor | designlab.c:26-35 | the compiled-in image, a zero answer buffer, zero result arrays (lines 609-610), measuring, no reset pending |
| Driver.Gpx2.SetInputPins | designlab.c:46-58 | the image array becomes Registers.SetInputPins of the old image |
| Driver.Gpx2.SetRefclk | designlab.c:59-64 | the image array becomes Registers.SetRefclk of the old image |
| Driver.Gpx2.SetInputProcessing | designlab.c:65-77 | the image array becomes Registers.SetInputProcessing of the old image |
| Driver.Gpx2.SetChannelCombine | designlab.c:96-100 | the image array becomes Registers.SetChannelCombine of the old image |
| Driver.Gpx2.SetHires | designlab.c:121-129 | the image array becomes Registers.SetHires of the old image |
| Driver.Gpx2.SetCommonFifo | designlab.c:130-135 | the image array becomes Registers.SetCommonFifo of the old image |
| Driver.Gpx2.SetBlockwiseFifo | designlab.c:136-141 | the image array becomes Registers.SetBlockwiseFifo of the old image |
| Driver.Gpx2.SetRefclkDivisions | designlab.c:143-154 | the image array becomes Registers.SetRefclkDivisions of the old image |
| Driver.Gpx2.SetRefclkByXosc | designlab.c:161-166 | the image array becomes Registers.SetRefclkByXosc of the old image |
| Driver.Gpx2.SetCmosInput | designlab.c:167-172 | the image array becomes Registers.SetCmosInput of the old image |
| Driver.Gpx2.PinsDisable | designlab.c:253-256 | the image array becomes Registers.PinsDisable of the old image |
| Driver.Gpx2.PinsEnable | designlab.c:257-260 | the image array becomes Registers.PinsEnable of the old image |
| Driver.Gpx2.RefclkResetPulse | designlab.c:261-264 | the image array becomes Registers.RefclkResetPulse of the old image |
| Driver.Gpx2.RefclkResetUnpulse | designlab.c:265-268 | the image array becomes Registers.RefclkResetUnpulse of the old image |
| Driver.Gpx2.FillPins | designlab.c:183-187 | the shared buffer holds the four answers |
| Driver.Gpx2.InputConfig | designlab.c:173-248 | the image becomes the configured image of the answers, and the shared buffer ends with the HIT answers |
| Driver.Gpx2.ConfigurePass | designlab.c:592-595 | one dialogue followed by the validation of the resulting image; as written it never accepts |
| Driver.Gpx2.ConfigureLoop | designlab.c:592-595 | the loop ends accepting exactly when the last dialogue's image is accepted, and otherwise only after all answers; the image is that of the dialogues so far, and the shared buffer holds the last dialogue's HIT answers; as written it never ends accepting |
| Driver.Gpx2.NextPass | designlab.c:592-595 | one turn of the loop, recorded in the list of images; the shared buffer ends with that turn's HIT answers, and the turn accepts exactly when the validator accepts the new image |
| Driver.Gpx2.WriteAndVerifyConfig | designlab.c:336-352 | writes the image and reads it back: the bus gains the write frame and the read-back frame up to the first differing byte, and the result is true exactly when the 17 bytes read equal the image |
| Driver.Gpx2.Launch | designlab.c:601-607 | the write and read-back, then the start exactly when the 17 bytes read equal the image; the bus gains exactly the frames Perform gives for that plan |
| Driver.Gpx2.BringUp | designlab.c:585-607 | the power-on reset frame, then the dialogues, ending accepting exactly when the last dialogue's image is accepted; the shared buffer holds that dialogue's HIT answers; after an accepted image the frames of its write, read-back and start; started exactly when accepted and the read-back equals the image; as written it never starts |
| Driver.Gpx2.ServicePendingReset | designlab.c:614-620 | the bus gains the frames Perform gives for Control.Service's plan; true exactly when no reset was pending or the read-back equals the new image, and then the state is the planned one |
| Driver.Gpx2.Pause | designlab.c:623-628 | stops measuring, sets bit 6, writes and verifies; true exactly when the read-back equals the new image, with the frames of that write |
| Driver.Gpx2.Resume | designlab.c:629-635 | measures, clears bit 6, writes and verifies, and starts; true exactly when the read-back equals the new image, and the start frame is sent exactly then |
| Driver.Gpx2.ClockReset | designlab.c:636-641 | sets bit 7, writes and verifies; true exactly when the read-back equals the new image, and the reset is marked pending exactly then |
| Driver.Gpx2.HandleCommand | designlab.c:622-645 | the bus gains the frames Perform gives for Control.Command's plan; halts exactly when a planned read-back differed, reboots exactly on 'q', and otherwise reaches the planned state |
| Driver.Gpx2.ReadAndShow | designlab.c:646-663 | reads 24 bytes in one 0x68 frame, the arrays hold their decoding, and the printed channels are Shown of the buffer |
| Driver.Gpx2.ServiceThenCommand | designlab.c:614-645 | the bus gains the frames Perform gives for the reset's and then the command's plan; halts exactly when one of those read-backs differed, reboots exactly when none did and the command is 'q', otherwise reaches the command's state |
| Driver.Gpx2.ReadIfMeasuring | designlab.c:646-663 | the run's frames go on with a 0x68 results read exactly when measuring, and then the arrays hold the decoding and the printed channels follow the buffer; otherwise the bus and the result arrays are unchanged and nothing is printed |
| Driver.Gpx2.Step | designlab.c:612-666 | the bus gains exactly the frames Perform gives for Control.ControlStep's plan; the iteration halts exactly when a planned read-back differed, reboots exactly when none did and the command is 'q', and otherwise reaches the planned state with the chip left holding the new image; when measuring, the arrays hold the decoding of the last 24 bytes read and the printed channels follow the buffer; an iteration that reads no results leaves the result arrays unchanged |
| Driver.IterationActions | designlab.c:612-663 | every iteration plans the reset's actions, then the command's, then a results read exactly when it goes on measuring |

The facts of `Validator.ExactReportFacts` are:

- channel ch is reported by check 1 exactly when it is unmatched;
- check 4 fires as written always, and corrected exactly for code 3;
- the clock-source ERROR fires exactly when XOSC equals REFCLK_ENA;
- the divisor checks fire in their ranges;
- check 11 never fires;
- check 8 warns in the corrected reading exactly above 50000 ps.

## Left out

- Text output is not modelled: every `printf` of the program, the messages of the validator and the format of the result lines. Findings are tagged values, and printed channels are a list of channel indices.
- Operator input is not read. The dialogue's `scanf` answers are parameters (`Driver.Answers`), taken after the program's conversion to 8 bits. The typed frequency is taken as the 32-bit value it is stored in.
- `getchar_timeout_us` returning no character is one of the characters that is not a command.
- Hardware set-up is not modelled: `stdio_init_all`, the start-up `getchar`, the SPI format, and the set-up of the GPIO and chip-select pins.
- Only the inactive chip-select level of that set-up is modelled, as the bus constructor's state.
- The hardware byte transfers are the `Spi.Bus` abstraction. What the chip shifts out is a given stream of bytes, and the clock phase and polarity are not modelled.
- Timing is not modelled: `busy_wait_us` after the power-on reset and after the start, and the busy-wait on the interrupt pin before a results read. The model reads results as if the chip had them ready.
- `restart()` and the watchdog reboot are outcomes (`Rebooted`), not behaviour.
- After a read-back that differs, the program waits for 'q' forever. That wait is the terminal `Halted` outcome.
- The bring-up in `main` and the acquisition loop are modelled as `BringUp` and one iteration, `Step`. The endless loop is not a method, because it does not end.
- The configuration loop is given a finite list of answer sets. It stops when the list is used up.
- `WellFormed` excludes a zero REFCLK frequency, which is a division by zero in `gpx2_compute_divisions_from_freq` (undefined behaviour in C).
- `Driver.Gpx2.ConfigureLoop`, and `Driver.Gpx2.BringUp` which calls it: state the verdict on the final image only. They do not state that the images of earlier dialogues were rejected, because a clause over the validation of every earlier image makes the loop's proof too large for the verifier.
- `Validator.Run`: a zero divisor reaches check 8's division `10^12 / refclk_div`, which is undefined behaviour in C. The run then ends in the `DivisionByZero` outcome, which carries the findings so far. The configuration loop treats it as a rejection.
- gpx2_pico.c is not part of this model. It does not compile as it stands, and its well-formed parts repeat the framing of designlab.c.

## Findings

| source | as written | input that shows it | evidently intended | confidence | as-written member | corrected member |
|---|---|---|---|---|---|---|
| designlab.c:435 | `hires != 4 \|\| hires != 2 \|\| hires != 0` holds for every value, so check 4 reports an ERROR on every image | any image, e.g. the compiled-in one (HIRES code 0) | reject only the undefined two-bit code 3 (codes 0, 1, 2 are off, 2x, 4x) | not executed | Validator.AsWrittenRejectsEveryImage | Validator.IntendedHiresCheck |
| designlab.c:467 | `uint32_t refclk_freq = 1000000000000ULL / refclk_div` drops the quotient's high bits for divisors below 233 ps | divisor 232: 4310344827 Hz is stored as 15377531 and draws the low-frequency warning | compare the full 64-bit quotient with 20 MHz: warn exactly when the divisor exceeds 50000 ps | not executed | Validator.TruncatedFrequencyWarns | Validator.IntendedFrequencyWarning |
