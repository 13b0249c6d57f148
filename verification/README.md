# QMK firmware logic, modelled and proved in Dafny

QMK is keyboard firmware: small C state machines over bounded buffers, wrapping clocks and
byte-addressed memory, and a Python script that converts firmware images. This project models
the components with the hardest logic and proves what each of them is for, over every input
and every run.

How the files are laid out: code that works in place is a class or a method with loops, on the
same fields and buffers as the source. Each such method is proved to do exactly what a function
on values says (`Tapping.ProcessTapping`, `DeferredExec.Pass`, `OneShot.Apply`, ...), and the
files named `...Runs`, `...Order`, `...RoundTrip` and the like prove the promises about those
functions, over whole runs.

| component | files |
|---|---|
| tap/hold resolver | `KeyEvents`, `Tapping`, `TappingEngine`, `TappingConservation`, `TappingOrder`, `TappingLimits`, `TappingDecisions`, `TappingArrivals`, `TappingVerdicts`, `TappingLater`, `TappingMisjudged`, `TappingPace`, `TappingPunctual`, `TappingRepeats`, `TappingReleases`, `KeycodeTapping` |
| firmware image converter | `Uf2Format`, `Uf2Conv`, `Uf2Reading`, `Uf2RoundTrip`, `IntelHex`, `HexReading`, `HexImage`, `HexText` |
| deferred execution | `DeferredExec`, `DeferredTokens`, `DeferredClock`, `DeferredDrift`, `DeferredPunctual` |
| VIA, dynamic keymap and macros in EEPROM | `Eeprom`, `DynamicKeymap`, `DynamicKeymapViews`, `Via`, `ViaCrash`, `ViaImage`, `KeymapMacros`, `KeymapMacroTokens` |
| paged memory drivers | `PagedMemory`, `SpiChip`, `FlashSpi`, `FlashSpiRuns`, `EepromSpi`, `EepromSpiRuns`, `EepromI2c`, `EepromI2cRuns` |
| layers and the source-layer cache | `LayerBits`, `ActionLayer`, `ActionLayerRuns` |
| dynamic macros | `DynamicMacro`, `DynamicMacroRuns` |
| matrix scanning and ghosts | `Ghosts`, `MatrixTask`, `MatrixRuns` |
| quadrature encoders | `Encoder`, `EncoderRuns`, `EncoderSplit`, `EncoderAstray` |
| CRC-8 | `Crc8`, `CrcDetection` |
| one-shot keys and reports | `OneShot`, `OneShotRuns` |
| keycodes, actions and their effects | `KeycodeActions`, `KeycodeMeaning` |
| shared arithmetic and sequences | `Arithmetic`, `Sequences` |

What the outside world does is a parameter: what an action is, which terms apply and how
`process_record` changes layers (any function of the calls made so far), what callbacks return,
what the buses and memory chips do (a script of answers), the pins of an encoder, the scanned matrix.

## Where the code does not do what one would expect

Each of these is a lemma that says for all inputs when the code does, together with inputs or runs
on which it does not.

- A press can overtake waiting events when the resolver was left with events waiting and no
  undecided key (`TappingLimits.InTurnExactlyWhen`; the run is `TappingLimits.APressCanOvertake`).
- A tap key can be settled by an event from before its press, or count a nested tap whose press
  came after its release. A run is free of this exactly when none of its calls errs
  (`TappingVerdicts.EveryCallIsJustified`), which for a key that starts while events wait depends on
  the first of these that does not pass it by (`TappingVerdicts.NewKeyIsSettledEarlyExactlyWhen`).
  The runs are `TappingMisjudged.HeldByAnEarlierPress` and `TappingMisjudged.HeldByAnInsideOutTap`.
- A quick tap that is not counted has its reason: the press came past the quick-tap term, an event past
  the tapping term came in between, an overflow dropped events, or, as in the first item, an event from
  before the release was still held (`TappingRepeats.NoQuickTapIsMissed`).
- Reading a UF2 file of several families for none in particular gives nothing, at address 0, unless its
  last block is passed over (`Uf2Reading.ReadsImage`, `Uf2Reading.TwoFamiliesReadNothing`).
- The busy wait of the SPI flash driver succeeds on a busy chip exactly when it misread a status, as
  a time-out of -2 has its lowest bit clear (`FlashSpiRuns.WaitIsIdleExactlyWhen`); then a write
  reports success with nothing written (`FlashSpiRuns.MisreadIsSuccess`); so it does when the
  write-enable byte was lost, which it does not look at (`FlashSpiRuns.LostEnableIsSuccess`). Without
  either, success means written (`FlashSpiRuns.SuccessMeansWritten`).
- The SPI EEPROM driver goes on with address and data when the command byte was lost, and the chip
  takes the first byte of the address for the command. So a lost write command stores nothing exactly
  when the address does not begin with the code of that command or only one byte follows
  (`EepromSpiRuns.LostCommandStoresExactlyWhen`); else it overwrites another place
  (`EepromSpiRuns.LostWriteOverwrites`), as a lost read command does on a chip that was left enabled
  (`EepromSpiRuns.LostReadStoresExactlyWhen`, `EepromSpiRuns.LostReadOverwrites`).
- The I2C EEPROM driver makes the I2C address of a block from its start. On chips that take a part of
  the location from there, a block is written as it should be exactly when it lies in the bank that its
  start selects (`EepromI2cRuns.FlatExactlyWhen`, `EepromI2cRuns.InBankExactlyWhen`); past the end of
  the bank it overwrites the beginning (`EepromI2cRuns.BlockWraps`, `EepromI2cRuns.CrossingOverwrites`).
  A block is read as it should be exactly when its start selects the bank it lies in and the chip's
  address counter does not start over before its end (`EepromI2cRuns.ReadsExactlyWhen`).
- A scan asks for a tick exactly when the matrix cannot be read or is as remembered
  (`MatrixTask.Scanner.Task`), so none does while a ghost withholds a change
  (`MatrixRuns.NoTicksWhileWithheld`). That the resolver holds nothing for long is proved of runs with
  ticks (`TappingPunctual.EverythingIsHeldShortly`).
- The flash driver refuses to erase exactly the last sector and the last block
  (`FlashSpiRuns.OnlyTheLastUnitIsRefused`).
- The packet loop of the I2C EEPROM driver ends exactly for chunks of at most 255 bytes
  (`EepromI2c.PacketLoopEndsExactlyWhen`), so writing a block ends exactly when pages are no longer, or
  it touches at most two pages with at most 255 bytes in each (`EepromI2cRuns.WriteEndsExactlyWhen`).
- `dynamic_keymap_macro_send` runs past the macro buffer when the buffer holds exactly `id`
  nulls (`KeymapMacroTokens.OverrunsExactlyWhen`), and sends a code it does not know together with
  the key or delay of a token before, if there was one (`KeymapMacroTokens.UnknownCodeSendsLeftovers`,
  `KeymapMacroTokens.LeftoverKeyIsSentAgain`).
- An encoder's two directions share a source-layer entry, so a step is released with another action
  than it was pressed with exactly when the encoder was turned back in between and last found on a
  layer that has another action for it (`ActionLayerRuns.EncoderReleaseAgreesExactlyWhen`). That
  press and release are executed one after the other does not prevent it: the resolver can keep the
  release back (`EncoderAstray.ReleaseComesLate`, `EncoderAstray.ReleaseGoesAstray`).
- A layer-with-modifiers keycode loses its layer when it has right-hand modifiers and an even layer,
  as their flag spills into the layer number (`KeycodeMeaning.LayerModKeepsLayerExactlyWhen`). A
  layer-tap of five key codes is a layer operation instead (`KeycodeMeaning.LayerTapExactlyWhen`),
  and a mod-tap of two is a one-shot or toggled modifier (`KeycodeMeaning.ModTapExactlyWhen`).
- The two CRC-8 variants use different polynomials: of the one-byte messages they agree on 0xFF and
  0x12 only (`CrcDetection.VariantsDiffer`).
- Converting HEX data whose 256-byte pages go backwards writes a UF2 file that cannot be read back
  (`HexImage.HexRoundTrip`), and the HEX reader fails on text without an end-of-file record
  (`HexText.ReadPrintedLines`).
- `convert_from_uf2` says it skips a block with a bad magic number, but building that message adds
  an integer to a string and raises: a file is read exactly when, among other things, every block has
  both magic words (`Uf2Reading.ReadsExactlyWhen`), and a blank block at its end makes it fail
  (`Uf2Reading.BlankBlockFails`).
- A one-shot layer is switched off exactly when one-shot keys are enabled at the operation that
  clears the last of its state bits (`OneShotRuns.LayerOffExactlyOnce`); cleared while they are
  disabled, it stays on (`OneShotRuns.DisabledLeavesLayerOn`, `OneShotRuns.ALayerIsStuck`).

## Model

| member | source | states |
|---|---|---|
| TappingEngine.Engine.ActionTappingProcess | quantum/action_tapping.c:80-113 | one event: resolve, else enqueue, on overflow clear everything, then drain; the in-place state ends as the call on values says |
| TappingEngine.Engine.DrainWaitingBuffer | quantum/action_tapping.c:101-109 | re-offers waiting records, oldest first, until one is not consumed |
| TappingEngine.Engine.Round | quantum/action_tapping.c:101-108 | one turn of that loop: the record is rewritten in its slot and leaves the ring exactly if consumed |
| TappingEngine.Engine.ProcessTapping | quantum/action_tapping.c:165-440 | the whole branch structure, in place, including what is written back to the caller's record |
| TappingEngine.Engine.ProcessUndecided | quantum/action_tapping.c:199-302 | the branches for an undecided key within its term |
| TappingEngine.Engine.ProcessWhileTapped | quantum/action_tapping.c:312-337 | another key while a counted key is down, with the made-up release for a repeated tap |
| TappingEngine.Engine.ProcessAfterTap | quantum/action_tapping.c:391-429 | the branches for a key released a moment ago; which of them counts a press as the next tap is TappingRepeats.RepeatedExactlyWhen |
| TappingEngine.Engine.WaitingBufferEnq | quantum/action_tapping.c:446-462 | ticks are dropped, a full ring is reported and left alone, else the record joins the end |
| TappingEngine.Engine.WaitingBufferClear | quantum/action_tapping.c:468-471 | nothing waits any more |
| TappingEngine.Engine.WaitingBufferTyped | quantum/action_tapping.c:477-484 | true exactly when the other half of the event's key waits |
| TappingEngine.Engine.WaitingBufferScanTap | quantum/action_tapping.c:501-521 | settles the tapping key by the first waiting release of it inside its term, if there is one |
| TappingEngine.FifoPush | quantum/action_tapping.c:451-457 | writing at the head of the eight-slot ring appends to the queue it stands for |
| TappingEngine.FifoPop | quantum/action_tapping.c:101 | advancing the tail drops the oldest record and no other |
| TappingEngine.FullExactlyAtCapacity | quantum/action_tapping.c:451 | the ring counts as full exactly when seven records wait |
| TappingConservation.ProcessTappingConserves | quantum/action_tapping.c:165-440 | one step processes, holds or returns every event exactly as often as before, and consumes the one at hand exactly if it says so |
| TappingConservation.ExactlyOnce | quantum/action_tapping.c:80-113 | in every run each key event is processed, held or dropped by an overflow exactly as often as it arrived; only made-up releases are extra calls |
| TappingConservation.NothingDropped | quantum/action_tapping.c:91-97 | without an overflow nothing is dropped |
| TappingConservation.ExactlyOnceWithoutOverflow | quantum/action_tapping.c:80-113 | so every key event is processed exactly once or still held |
| TappingConservation.OverflowEmptiesEverything | quantum/action_tapping.c:91-97 | an overflow leaves nothing waiting and nothing undecided |
| TappingConservation.OverflowsExactlyWhen | quantum/action_tapping.c:446-462 | that happens exactly if seven events wait already and a key event is not consumed |
| TappingOrder.ProcessTappingMoves | quantum/action_tapping.c:165-440 | every path of the function is one of six moves of a delay queue |
| TappingOrder.CallKeepsOrder | quantum/action_tapping.c:80-113 | from a state with the buffer empty or its key undecided, a call is a run of legal deliveries of that queue |
| TappingOrder.RunDelivers | quantum/action_tapping.c:80-113 | over a run whose calls start so, the calls made are such deliveries of the events that arrived |
| TappingOrder.RunKeepsPressOrder | quantum/action_tapping.c:80-113 | presses are processed in arrival order, those still held last |
| TappingOrder.PressesKeepTheirOrder | quantum/action_tapping.c:257-300 | legal deliveries never reorder presses |
| TappingOrder.OnlyFreeReleasesOvertake | quantum/action_tapping.c:257-300 | with equal events in any number: deliveries permute what waited, and an earlier one is overtaken only by a release whose press is not among the overtaken |
| TappingLimits.InTurnExactlyWhen | quantum/action_tapping.c:98-109 | told by arrival number, so for equal events too: offering an event keeps to the queue exactly when the state is in order, or the event is a tick or a free release, or ends the state of a released key |
| TappingLimits.NumbersAside | quantum/action_tapping.c:98-109 | deliveries told by number are deliveries of the queue |
| TappingLimits.LeftWaiting | quantum/action_tapping.c:342-349 | a run that leaves events waiting with nothing undecided |
| TappingLimits.APressCanOvertake | quantum/action_tapping.c:80-113 | continued, a later press is processed before an earlier one |
| TappingDecisions.EveryCallIsAccounted | quantum/action_tapping.c:80-113 | in every run, overflows included, the event of every call has arrived; a repeat follows a tap of its key inside the quick-tap and the tapping term, undisturbed and itself released inside the tapping term; a counted release follows a press of that count, and a made-up release the press it releases |
| TappingDecisions.SettledExactlyWhen | quantum/action_tapping.c:193-349 | an undecided key is settled exactly when its term is over or its own release, a nested release or another press settles it, once, and the count reported is 1 exactly for its own release in time |
| TappingDecisions.TermEndDecides | quantum/action_tapping.c:341-349 | any event or tick at or past the term makes it a hold |
| TappingDecisions.TapCountIsRunLength | quantum/action_tapping.c:396-406 | a reported count is the length of an uninterrupted run of quick taps, saturated at 15: each press is followed by its own release inside the tapping term, the first of its key, and only by releases of other keys up to the next press |
| TappingRepeats.RepeatedExactlyWhen | quantum/action_tapping.c:391-436 | with nothing waiting, the next press of a key tapped n times, undisturbed and up, is reported at once with the next count if and only if it comes inside both terms; past the quick-tap term the key starts anew, and past the tapping term all is as at rest |
| TappingRepeats.PressInterrupts | quantum/action_tapping.c:285-301 | a press inside the term of an undecided key marks it as interrupted, and makes it a hold exactly if holding on other presses is asked for |
| TappingRepeats.NoQuickTapIsMissed | quantum/action_tapping.c:80-440 | in every run: the next press reported of a key just tapped, undisturbed, is reported with the next count, unless it came past the quick-tap term, or an event that arrived since the release came past the tapping term, or an overflow dropped events since the tap began; asked only where no event from before the release is still held |
| TappingRepeats.QuickTapIsCounted | quantum/action_tapping.c:80-440 | so without an overflow, and with nothing past its terms, it is counted |
| TappingRepeats.ReportedTapCountsAreLongest | quantum/action_tapping.c:396-406 | for every press reported in any run: its count is the length, saturated at 15, of the longest run of quick taps that ends with it, as the first of them follows no other |
| TappingRepeats.RepeatIsReleased | quantum/action_tapping.c:312-337 | a tap key pressed while a repeated tap is down makes up its release first, with its count, at the time of the new press; after a single tap it makes up none |
| TappingRepeats.RepeatedTapsAreReleased | quantum/action_tapping.c:304-382 | in every run the press of a repeated tap is followed by a release of its key, unless it is still the tapping key, or an overflow came since |
| KeycodeTapping.EveryKeycodeIsClassified | quantum/action.c:1136-1158 | of all keycodes exactly MT and LT with a key that can be tapped, OSL, OSM and TT give actions to tap or hold, and exactly the listed ones actions whose release is kept back |
| KeycodeTapping.SwapHandsIsTapped | quantum/action.c:1149-1155 | of swap-hands actions those with a key, and tap-toggle |
| KeycodeTapping.PressIsDecidedExactlyWhen | quantum/action_tapping.c:169-189 | at rest the press of a key waits to be decided if and only if its keycode is one to tap or hold, else it is processed at once |
| KeycodeTapping.ReleaseWaitsExactlyWhen | quantum/action_tapping.c:257-283 | while a key is undecided, in its term, the release of a key that was pressed before waits for it if and only if its keycode is a modifier, a layer key or the like, else it is processed at once |
| TappingDecisions.CallsGrow | quantum/action_tapping.c:101-109 | no call is taken back: decisions are final |
| TappingReleases.TapsAreReleasedAsTaps | quantum/action_tapping.c:206-216 | in every run, the release that made a key tapped is itself reported as tapped, however long it has to wait, so that it takes back what the press registered |
| TappingArrivals.ProcessTappingCalls | quantum/action_tapping.c:165-440 | a step settles at most one key, with its last call and exactly when the conditions of the branches hold, by the event at hand, or as the key starts by its own waiting release |
| TappingArrivals.StepIsProperExactlyWhen | quantum/action_tapping.c:193-301 | what a step settles is right exactly when the cause arrived after the press and a nested tap's press arrived between the two |
| TappingVerdicts.EveryCallIsJustified | quantum/action_tapping.c:80-113 | in every run, overflows included, each tap and hold was settled by a numbered arrival that gives the grounds: a release in the term, a time-out, a nested tap, an interruption; and all of these came after their presses, nested taps lying wholly inside, exactly when no call of the run errs |
| TappingVerdicts.CallIsRightExactlyWhen | quantum/action_tapping.c:80-113 | one call keeps all right exactly when it errs neither at the arrival nor where draining stops |
| TappingVerdicts.OfferIsRightExactlyWhen | quantum/action_tapping.c:81-98 | at the arrival: it starts a key whose release waits already, or completes a nested tap whose press had waited since before the key |
| TappingVerdicts.DrainIsRightExactlyWhen | quantum/action_tapping.c:101-109 | draining: it errs exactly in the state in which it stops |
| TappingVerdicts.PassedOverExactlyWhen | quantum/action_tapping.c:193-301 | draining passes over a record while a key is undecided exactly for a free release of another key in the term |
| TappingVerdicts.NewKeyIsSettledEarlyExactlyWhen | quantum/action_tapping.c:101-109 | a key that starts while events wait is settled by one of them exactly when its release waits in its term, or the first that does not pass it by is outside its term or settles it inside |
| TappingMisjudged.HeldByAnEarlierPress | quantum/action_tapping.c:341-349 | a run of keys each pressed at most once, in which the fifth arrival is held in the call that delivers it, by the third |
| TappingMisjudged.HeldByAnInsideOutTap | quantum/action_tapping.c:220-252 | a run in which a key is held for a nested tap whose press came after its release |
| TappingLater.DecisionsComeLater | quantum/action_tapping.c:193-349 | a condition on whole runs that is enough: if every call starts with nothing waiting or a key undecided, what settled each tap and hold arrived after its press |
| TappingLater.DecisionsAreClose | quantum/action_tapping.c:193-349 | if nothing is held for a turn of the 16-bit clock, less than a turn lies between each press and what settled it |
| TappingLater.TermsAreTrueTimes | quantum/action_tapping.c:193-349 | on the unbounded clock, in such runs without an erring call: a tap was released less than its term after its press, and a hold without nested tap or other press took at least its term |
| TappingPace.DrainKeepsPace | quantum/action_tapping.c:101-109 | draining moves nothing down the line of what is held, and everything up by at least a tick if nothing was undecided |
| TappingPunctual.RunKeepsPace | quantum/action_tapping.c:80-113 | over any run with ticks at most a gap apart, every event that has waited longer than the longest term comes nearer to being processed with each tick |
| TappingPunctual.EverythingIsHeldShortly | quantum/keyboard.c:491-525 | so nothing is ever held for longer than the longest term and 23 gaps, if these fit the 16-bit clock |
| TappingPunctual.EverythingIsProcessed | quantum/action_tapping.c:80-113 | and every key event is processed by then, as often as it arrived, unless an overflow dropped it |
| TappingPunctual.TermsAreTrueWithTicks | quantum/action_tapping.c:193-349 | on such runs, without an erring call, taps and holds keep to their terms on the unbounded clock |
| Uf2Conv.Converter.ConvertFromUf2 | util/uf2conv.py:37-109 | the reading loop gives the output and start address of the reader on values, or fails where it fails; what these are, for every file, is Uf2Reading.ReadsImage |
| Uf2Conv.Converter.ConvertBlock | util/uf2conv.py:48-108 | one block: magic, flags, family change, order, padding limits, and the discarding of mixed families at the end |
| Uf2Conv.Converter.Position | util/uf2conv.py:60-67 | the family and address after a header: a new run for the first block and for a new family |
| Uf2Conv.Converter.NoteFamily | util/uf2conv.py:81-86 | the lowest address found for each family |
| Uf2Conv.Converter.Pad | util/uf2conv.py:75-77 | appends exactly the padding in zeros |
| Uf2Conv.Converter.ConvertToUf2 | util/uf2conv.py:121-142 | writes the encoded blocks of the pages of the binary; an address or count that does not fit its word fails |
| Uf2Conv.Converter.Chunk | util/uf2conv.py:129-138 | the page at an offset, filled up with zeros |
| Uf2Format.BlockLayout | util/uf2conv.py:149-166 | a written block, word by word where the UF2 specification puts them: magic words, flags, address, size, number and count, family, then the page, the device type if there is one, zeros, and the closing magic word |
| Uf2Format.HeaderLayout | util/uf2conv.py:46-47 | a header is read from these words |
| Uf2Format.DecodedBlock | util/uf2conv.py:149-166 | a written block reads back as its page, family, number and flags, whatever the device extension |
| Uf2RoundTrip.ReadOfWritten | util/uf2conv.py:37-109 | reading written pages gives their flat image and start address, exactly when every gap is non-negative, whole words and at most 10 MiB |
| Uf2RoundTrip.BinaryRoundTrip | util/uf2conv.py:121-142 | a binary comes back zero-padded to whole pages, for any family the reader accepts |
| Uf2RoundTrip.EmptyRoundTrip | util/uf2conv.py:37-47 | an empty file reads as nothing |
| Uf2RoundTrip.OtherFamilyReadsNothing | util/uf2conv.py:63-79 | a reader asked for another family keeps its start address and no data, only the zeros that fill the gaps, and reads exactly the files with gaps it can fill |
| Uf2Reading.ReadsExactlyWhen | util/uf2conv.py:37-80 | any file, written by whomever, is read exactly when every block has its magic words, a legal size and a place where it starts a run or goes on with a gap that can be padded, whatever family is asked for |
| Uf2Reading.BlankBlockFails | util/uf2conv.py:48-52 | for instance not with a blank block at its end |
| Uf2Reading.ReadsImage | util/uf2conv.py:37-109 | of any file that is read: the output is the wanted data, block by block, with zeros for the gaps of all blocks meant for the main flash, and the start is that of the last wanted run; but nothing and 0 exactly when no family is asked for, two flagged blocks differ in family, and the last block is not passed over |
| Uf2Reading.TwoFamiliesReadNothing | util/uf2conv.py:106-109 | for instance, two images written for different families, one behind the other, are nothing, at 0 |
| IntelHex.HexConverter.ConvertFromHexToUf2 | util/uf2conv.py:168-205 | encodes the pages of the bytes the text writes, and takes the first data address as start; fails where the reader on values fails |
| IntelHex.HexConverter.ConvertRecord | util/uf2conv.py:182-200 | one record: extended addresses, end of file, data |
| IntelHex.HexConverter.ParseLine | util/uf2conv.py:177-181 | the byte pairs of a line |
| IntelHex.HexConverter.PutData | util/uf2conv.py:193-200 | each byte goes to the current page or opens a new one |
| IntelHex.HexConverter.PutNext | util/uf2conv.py:193-200 | one byte: the pages are those of one write more |
| IntelHex.HexConverter.Pack | util/uf2conv.py:201-205 | the blocks of the pages, or a failure if a number does not fit |
| HexImage.PagesHoldMemory | util/uf2conv.py:193-200 | with ascending page numbers, the pages hold the last value written to each address, and zero elsewhere |
| HexImage.FlattenedIsMemory | util/uf2conv.py:68-80 | glued together with their gaps they are the memory, byte for byte |
| HexImage.HexRoundTrip | util/uf2conv.py:168-205 | HEX to UF2 to binary is the flat image, later records winning, exactly when the page numbers ascend within the padding limit; else it fails |
| HexReading.TextIsReadExactlyWhen | util/uf2conv.py:168-200 | any text, in terms of the characters of its lines: read exactly when all lines up to the first end-of-file record are sound, and what is written, and the start address, are what these lines say: digits in either case, a blank in a pair, the record types, bases and addresses |
| HexReading.LinesJoinToText | util/uf2conv.py:174 | the lines are the text, cut at its newlines |
| HexReading.IsHexTextExactlyWhen | util/uf2conv.py:28-35 | the texts taken for HEX consist of digits in either case, colons and blanks |
| HexText.ReadPrintedLines | util/uf2conv.py:174-200 | printed Intel HEX is read as the records printed; without an end-of-file record it fails |
| HexText.TextMeansItsRecords | util/uf2conv.py:174-200 | what the text writes is what the specification says its records put into memory |
| HexText.HexFileRoundTrip | util/uf2conv.py:168-205 | from printed HEX file to binary image |
| DeferredExec.Executors.TokenCanBeUsed | quantum/deferred_exec.c:18-28 | true exactly for non-zero tokens not in the table |
| DeferredExec.Executors.AllocateToken | quantum/deferred_exec.c:30-40 | ends, and gives the first usable value after the counter |
| DeferredExec.Executors.DeferExec | quantum/deferred_exec.c:46-73 | the first free slot gets a new token and its deadline, or nothing but the counter changes |
| DeferredExec.Executors.ExtendDeferredExec | quantum/deferred_exec.c:75-93 | sets the deadline of the token's slot anew, if it has one |
| DeferredExec.Executors.CancelDeferredExec | quantum/deferred_exec.c:95-116 | frees the token's slot, if it has one |
| DeferredExec.Executors.DeferredExecTask | quantum/deferred_exec.c:118-151 | at most once a millisecond, calls every due callback in slot order and requeues or frees its slot |
| DeferredTokens.DeferExactlyWhen | quantum/deferred_exec.c:46-73 | deferring hands out a token if and only if there is a delay, a callback, a free slot and a value not taken; the first free slot gets it, with the deadline on the wrapped clock, and nothing else changes |
| DeferredTokens.TokenExactlyWhen | quantum/deferred_exec.c:18-44 | the token is the first value after the counter that is neither 0 nor live |
| DeferredTokens.ExtendExactlyWhen | quantum/deferred_exec.c:75-93 | extending succeeds if and only if the token is live and there is a delay; it sets the deadline of the token's slot anew and changes nothing else |
| DeferredTokens.CancelExactlyWhen | quantum/deferred_exec.c:95-113 | cancelling succeeds if and only if the token is live; it frees the token's slot and changes nothing else |
| DeferredTokens.StepFreesOrIssues | quantum/deferred_exec.c:46-151 | every operation frees tokens or hands out one that was not live |
| DeferredTokens.LiveTokensAreDistinct | quantum/deferred_exec.c:16-73 | in every reachable state live tokens are non-zero and pairwise distinct |
| DeferredTokens.FailsOnlyWhenAllLive | quantum/deferred_exec.c:30-40 | allocation fails exactly when all 255 values are live |
| DeferredTokens.TokensComeBackLate | quantum/deferred_exec.c:16-40 | with one table of k slots, a token value comes back only after at least 255 - k other allocations |
| DeferredTokens.HandedOutIsCurrent | quantum/deferred_exec.c:57-67 | the state in which that bound starts to count is the one right after a token is handed out |
| DeferredClock.DueExactlyInWindow | quantum/deferred_exec.c:130 | the signed 32-bit comparison is the true one as long as the times are within half the clock's range |
| DeferredClock.NeverEarly | quantum/deferred_exec.c:130 | nothing is found due before its true deadline, if that is less than 2^31 ahead |
| DeferredClock.PollRunsAPass | quantum/deferred_exec.c:121-123 | polls less than 2^31 apart run a pass unless in the same millisecond |
| DeferredClock.PassCallsTheDue | quantum/deferred_exec.c:126-149 | a pass calls exactly what was due when it began, in slot order |
| DeferredClock.AtMostOncePerPass | quantum/deferred_exec.c:126-149 | no callback runs twice in a pass |
| DeferredClock.TaskCallsEachOnce | quantum/deferred_exec.c:118-151 | and so for every call of the task in any run |
| DeferredClock.NeverCalledUnlessLive | quantum/deferred_exec.c:126-132 | a token that is not live is not called, over any run that does not hand it out again |
| DeferredClock.CancelKills | quantum/deferred_exec.c:95-116 | cancelling succeeds exactly for live tokens, which then are not |
| DeferredClock.NeverCalledAfterCancel | quantum/deferred_exec.c:95-151 | after cancellation a callback never runs again |
| DeferredDrift.NoDrift | quantum/deferred_exec.c:118-151 | over any run with delays below 2^31: no call before its true deadline, each given its start plus all its delays so far |
| DeferredDrift.PassCallsWhatIsDue | quantum/deferred_exec.c:118-151 | after any such run a pass calls exactly the live slots whose true deadline has come, each once and in slot order, as long as none is 2^31 late |
| DeferredPunctual.RemembersLastPoll | quantum/deferred_exec.c:121-124 | over any run polled less than 2^31 apart, the remembered time is that of the last poll |
| DeferredPunctual.PollCallsUnlessLagging | quantum/deferred_exec.c:118-151 | from true times alone: a poll does nothing in the millisecond of the one before, and later calls exactly what is due unless a slot lags by 2^31 |
| DeferredPunctual.EveryCallIsPunctual | quantum/deferred_exec.c:118-151 | polled at most g apart and with callbacks that ask for no delay shorter than g, every call of the run came at or after its true deadline and at most g after it |
| DeferredPunctual.PollCallsWhatIsDue | quantum/deferred_exec.c:118-151 | and no slot lags then, so the next poll calls exactly what is due |
| Eeprom.Storage.UpdateByte | quantum/via.c:79-81 | one byte changes, and the update is in the history |
| Eeprom.RedoneUpdatesWin | quantum/via.c:106-117 | updates made all over again forget any interrupted attempt |
| DynamicKeymap.AddressesAre | quantum/dynamic_keymap.c:62-110 | where everything is: VIA's bytes, the keys layer by layer and row by row, the encoders, the macros up to the last address |
| DynamicKeymap.WordsAreBigEndian | quantum/dynamic_keymap.c:112-133 | keycodes are stored with the more significant byte first |
| DynamicKeymap.OutOfRangeIsNoKey | quantum/dynamic_keymap.c:112-150 | what is out of range reads as no key, and setting it does nothing |
| DynamicKeymap.KeysApart | quantum/dynamic_keymap.c:108-111 | distinct keys never share bytes |
| DynamicKeymap.KeyInside | quantum/dynamic_keymap.c:108-111 | every key's bytes lie in its row, its layer and the keymap |
| DynamicKeymap.Keymap.GetKeycode | quantum/dynamic_keymap.c:113-120 | the big-endian word at the key, or no key when out of range |
| DynamicKeymap.Keymap.SetKeycode | quantum/dynamic_keymap.c:122-128 | exactly the two byte updates of the key, or none |
| DynamicKeymap.Keymap.GetEncoder | quantum/dynamic_keymap.c:135-142 | the word of that direction, or no key |
| DynamicKeymap.Keymap.SetEncoder | quantum/dynamic_keymap.c:144-150 | exactly the two byte updates of that direction, or none |
| DynamicKeymap.Keymap.GetBuffer | quantum/dynamic_keymap.c:170-183 | the window of the keymap's bytes, zeros past its end |
| DynamicKeymap.Keymap.SetBuffer | quantum/dynamic_keymap.c:185-196 | the bytes spliced into the keymap, nothing outside it touched |
| DynamicKeymap.Keymap.Reset | quantum/dynamic_keymap.c:153-168 | the update sequence that puts every key and encoder back to flash |
| DynamicKeymap.Keymap.MacroReset | quantum/dynamic_keymap.c:248-255 | the update sequence that zeroes the macro area |
| DynamicKeymapViews.ViewsAgree | quantum/dynamic_keymap.c:108-196 | under any interleaving of keycode and buffer writes there is one array of bytes, and nothing outside it changes |
| DynamicKeymapViews.KeycodeDecodesArray | quantum/dynamic_keymap.c:113-120 | a keycode is that array decoded big-endian |
| DynamicKeymapViews.KeycodeFromBuffer | quantum/dynamic_keymap.c:170-183 | any keycode can be computed from the bytes read |
| DynamicKeymapViews.SetKeyReadsBack | quantum/dynamic_keymap.c:113-128 | a key reads back what was set, every other key what it was |
| DynamicKeymapViews.SetBytesReadsBack | quantum/dynamic_keymap.c:170-196 | bytes written read back, zeros where there is no keymap |
| Via.MagicSpellsDate | quantum/via.c:62-66 | each magic byte is two digits of the build date, four bits each |
| Via.MagicTellsDates | quantum/via.c:62-66 | so builds of different days have different magic |
| Via.ViaStore.IsValid | quantum/via.c:62-69 | whether the three magic bytes are those of the build date |
| Via.ViaStore.SetValid | quantum/via.c:73-82 | the three updates, in order |
| Via.ViaStore.SetLayoutOptions | quantum/via.c:135-144 | the updates from the least significant byte, downwards |
| Via.ViaStore.GetLayoutOptions | quantum/via.c:121-131 | the number read from the most significant byte |
| Via.ViaStore.EeconfigInitVia | quantum/via.c:106-117 | the exact update sequence: invalidate, options, keymap, macros, validate |
| Via.ViaStore.Init | quantum/via.c:93-104 | re-initialises exactly if the magic is not valid |
| ViaCrash.HalfWayIsErased | quantum/via.c:106-117 | strictly between the first and last update one magic byte is still 0xFF |
| ViaCrash.CrashSafe | quantum/via.c:106-117 | at every prefix of the updates, a valid magic means the untouched old memory or the complete reset image |
| ViaCrash.ResetImageIsValid | quantum/via.c:116 | the complete image is valid |
| ViaCrash.ResetAgain | quantum/via.c:106-117 | starting over from any interruption makes the same image |
| ViaCrash.InterruptionIsHarmless | quantum/via.c:93-104 | an interrupted boot changes nothing of what a completed boot ends with |
| ViaCrash.AllOldOrAllReset | quantum/via.c:93-117 | any number of interrupted boots and a completed one end all-old or all-reset |
| ViaImage.ImageHoldsFlashKeycodes | quantum/dynamic_keymap.c:153-160 | every key of the reset image is the one in flash |
| ViaImage.ImageHoldsFlashEncoders | quantum/dynamic_keymap.c:162-165 | every encoder direction too |
| ViaImage.ImageHasNoMacros | quantum/dynamic_keymap.c:248-255 | every macro byte is zero |
| ViaImage.ImageKeepsTheRest | quantum/via.c:106-117 | bytes outside VIA's regions, and the keyboard's own custom bytes, keep their values |
| ViaImage.LayoutOptionsRoundTrip | quantum/via.c:119-144 | options read back as set, cut to the bytes kept for them |
| KeymapMacros.Macros.SendMacro | quantum/dynamic_keymap.c:257-340 | what reaches the sender, chunk by chunk, and whether a byte past the buffer was asked for |
| KeymapMacros.Macros.SendFrom | quantum/dynamic_keymap.c:291-339 | the sending loop, with the scratch buffer that tokens share |
| KeymapMacros.Macros.ReadToken | quantum/dynamic_keymap.c:292-337 | one token into the scratch buffer |
| KeymapMacros.Macros.ReadKey | quantum/dynamic_keymap.c:305-313 | the key of a tap, press or release |
| KeymapMacros.Macros.ReadDelay | quantum/dynamic_keymap.c:314-335 | the digits of a delay up to its bar, at most four |
| KeymapMacroTokens.SkipFinds | quantum/dynamic_keymap.c:273-285 | skipping id nulls finds the id-th null-terminated string, or the end, or that there is none |
| KeymapMacroTokens.SendsTokens | quantum/dynamic_keymap.c:291-339 | whole tokens are sent, one chunk each, up to where the string ends or breaks off |
| KeymapMacroTokens.SendsTheMacro | quantum/dynamic_keymap.c:257-340 | a macro with known codes is sent as the tokens of the id-th string |
| KeymapMacroTokens.WholeStringExactlyWhenComplete | quantum/dynamic_keymap.c:257-340 | the chunks join to a prefix of that string, all of it exactly when it is made of whole tokens |
| KeymapMacroTokens.StoredTokensAreSent | quantum/dynamic_keymap.c:257-340 | any tokens stored as a macro are sent as they are |
| KeymapMacroTokens.NeverPastTheTerminator | quantum/dynamic_keymap.c:294-332 | nothing behind the string's null matters |
| KeymapMacroTokens.OverrunsExactlyWhen | quantum/dynamic_keymap.c:275-292 | reading past the buffer happens exactly when it holds exactly id nulls |
| KeymapMacroTokens.UnknownCodeSendsLeftovers | quantum/dynamic_keymap.c:257-340 | in a macro of known tokens and then an unknown code, the code is sent with the payload of the last key or delay, so alone exactly when there was none |
| KeymapMacroTokens.LeftoverKeyIsSentAgain | quantum/dynamic_keymap.c:298-338 | for instance the key of the token before |
| PagedMemory.WrittenBits | drivers/flash/flash_spi.c:320-376 | what is stored, bit by bit: in flash a bit is set only if it was, in an EEPROM bytes are replaced |
| PagedMemory.InPageIsFlat | drivers/flash/flash_spi.c:321-325 | inside one page, the chip's wrapping write is the flat write |
| PagedMemory.CrossingIsLost | drivers/flash/flash_spi.c:321-325 | a write that leaves its page would not reach the next |
| PagedMemory.WrittenTwice | drivers/flash/flash_spi.c:356-358 | consecutive flat writes are one |
| PagedMemory.ReadBack | drivers/flash/flash_spi.c:285-314 | what was written reads back where the memory took it |
| PagedMemory.FlashWriteTwice | drivers/flash/flash_spi.c:316-376 | writing the same bytes to flash again changes nothing |
| PagedMemory.AddressBytes | drivers/flash/flash_spi.c:133-136 | the address bytes decode to the address, most significant first |
| FlashSpi.WaitWhileBusy | drivers/flash/flash_spi.c:72-97 | ends and leaves the chip as the specification says |
| FlashSpiRuns.WaitIsIdleExactlyWhen | drivers/flash/flash_spi.c:72-97 | when the wait succeeds the chip is still busy exactly if a status was misread, and nothing else happens to it |
| FlashSpi.WriteEnable | drivers/flash/flash_spi.c:99-125 | ends and leaves the chip as the specification says |
| FlashSpiRuns.EnableBehaves | drivers/flash/flash_spi.c:99-125 | an idle chip is enabled or protected on success unless the command byte was lost, which is noted; memory stays |
| FlashSpi.Transmit | drivers/flash/flash_spi.c:128-163 | ends and leaves the chip as the specification says |
| FlashSpiRuns.TakesExactlyWhenReady | drivers/flash/flash_spi.c:72-110 | a chip that is idle and enabled takes a program or an erase, and is busy and protected then; any other takes none |
| FlashSpiRuns.TransactionWrites | drivers/flash/flash_spi.c:128-163 | one program of what arrived of the chunk, at its address and in its page; all of it on success; nothing on an error unless a transfer broke off |
| FlashSpi.WriteChunk | drivers/flash/flash_spi.c:321-354 | ends and leaves the chip as the specification says |
| FlashSpiRuns.ChunkWrites | drivers/flash/flash_spi.c:321-354 | wait, enable, program: unless something was misread or lost the chip was idle and enabled, and memory has what arrived of the chunk written in |
| FlashSpi.WriteNext | drivers/flash/flash_spi.c:320-358 | one turn of the loop leaves the rest of it to do, or ends it |
| FlashSpi.WriteChunks | drivers/flash/flash_spi.c:320-359 | the loop, for any way of writing a chunk that the specification equates with this one |
| FlashSpiRuns.ChunksWrite | drivers/flash/flash_spi.c:320-359 | no program leaves its page or meets a busy or protected chip, unless something was misread or lost; on any error a whole-chunk prefix is written unless a transfer broke off |
| FlashSpi.WriteBlock | drivers/flash/flash_spi.c:316-376 | ends and leaves the chip as the specification says |
| FlashSpiRuns.BlockWrites | drivers/flash/flash_spi.c:316-376 | memory is the old one with the prefix that arrived ANDed in, unless something was misread or lost; all of the buffer on success, the chip then idle and protected; on a good bus it fails only with the script |
| FlashSpiRuns.SuccessMeansWritten | drivers/flash/flash_spi.c:316-376 | told from the script: if no status in it can be taken for idle and no command is lost, success means written |
| FlashSpiRuns.LostEnableIsSuccess | drivers/flash/flash_spi.c:99-125 | a lost write-enable: success with nothing written |
| FlashSpiRuns.MisreadIsSuccess | drivers/flash/flash_spi.c:72-97 | a timed-out status of a busy chip: the program meets it, and success is reported with nothing written |
| FlashSpi.ReadBlock | drivers/flash/flash_spi.c:285-314 | ends, leaves the chip and returns the bytes as the specification says |
| FlashSpiRuns.BlockReads | drivers/flash/flash_spi.c:285-314 | the bytes asked for unless a status was misread, or zeros and an error; memory unchanged |
| FlashSpi.EraseUnit | drivers/flash/flash_spi.c:205-283 | ends and leaves the chip as the specification says |
| FlashSpiRuns.UnitErases | drivers/flash/flash_spi.c:205-283 | refuses, or unless something was misread or lost sets exactly the unit to 0xFF on success, and leaves nothing in between on an error |
| FlashSpiRuns.ErasesUnheard | drivers/flash/flash_spi.c:141-160 | if the header arrived although its transfer failed, the driver gives up on an erase that goes on |
| FlashSpi.EraseChip | drivers/flash/flash_spi.c:169-203 | ends and leaves the chip as the specification says |
| FlashSpiRuns.ChipErases | drivers/flash/flash_spi.c:169-203 | sets everything to 0xFF on success, unless a status was misread or a command lost |
| FlashSpiRuns.OnlyTheLastUnitIsRefused | drivers/flash/flash_spi.c:208-212 | of the aligned units in the chip exactly the last one is refused, unless the chip ends where the 32-bit sum turns over |
| FlashSpiRuns.ErasedThenWritten | drivers/flash/flash_spi.c:205-376 | what is written to an erased range reads back |
| EepromSpi.Store | drivers/eeprom/eeprom_spi.c:182-200 | the write transaction: command, address and data sent whatever arrives of them, and what the chip makes of that |
| EepromSpi.WriteChunk | drivers/eeprom/eeprom_spi.c:153-200 | ends and leaves the chip as the specification says |
| EepromSpiRuns.CommandCodes | drivers/eeprom/eeprom_spi.c:40-45 | the command bytes of the chip: 6 and 4 enable and disable writes, 2 writes and 3 reads |
| EepromSpiRuns.ChunkStores | drivers/eeprom/eeprom_spi.c:153-200 | wait, enable, write: memory has the chunk if all that was sent arrived; the write met an idle, enabled chip unless something was misread or a command lost, and stayed in its page unless a command or an address was lost |
| EepromSpi.WriteNext | drivers/eeprom/eeprom_spi.c:153-201 | one turn of the loop leaves the rest of it to do, or ends it |
| EepromSpi.WriteChunks | drivers/eeprom/eeprom_spi.c:153-204 | the loop, for any way of writing a chunk that the specification equates with this one |
| EepromSpi.WriteBlock | drivers/eeprom/eeprom_spi.c:147-217 | leaves the chip as the specification says |
| EepromSpiRuns.BlockStores | drivers/eeprom/eeprom_spi.c:147-217 | writes in order, to an idle and enabled chip unless something was misread or a command lost, and within pages unless a command or an address was lost; memory is the old one with the buffer, or a whole-chunk prefix, spliced in if all that was sent arrived |
| EepromSpiRuns.GoodBusStoresAll | drivers/eeprom/eeprom_spi.c:147-217 | told from the script: on a good bus that lasts, without statuses that look idle and lost commands, the whole buffer is stored |
| EepromSpiRuns.LostCommandStoresExactlyWhen | drivers/eeprom/eeprom_spi.c:182-200 | with the write command lost the chip is asked for a write exactly if the address begins with the code of that command and at least two bytes follow; what memory is then |
| EepromSpiRuns.LostWriteIsUnnoticed | drivers/eeprom/eeprom_spi.c:147-217 | in the whole write of a block the end is reached all the same, with that memory |
| EepromSpiRuns.LostWriteOverwrites | drivers/eeprom/eeprom_spi.c:182-200 | at 0x0210 with two address bytes: nothing is stored there, and another place is overwritten |
| EepromSpi.Receive | drivers/eeprom/eeprom_spi.c:134 | byte by byte what the chip answers or what is on the line, until the bus gives up; the rest of the buffer stays |
| EepromSpi.Fetch | drivers/eeprom/eeprom_spi.c:123-144 | the read transaction, and what the chip makes of the bytes that arrive |
| EepromSpi.ReadBlock | drivers/eeprom/eeprom_spi.c:111-145 | leaves the chip and returns the bytes as the specification says |
| EepromSpiRuns.BlockFetches | drivers/eeprom/eeprom_spi.c:111-145 | the bytes asked for if nothing was misread and all arrived, or zeros if it did not come to the transaction; memory unchanged unless the chip was enabled and a command lost |
| EepromSpiRuns.BrokenReadKeepsBuffer | drivers/eeprom/eeprom_spi.c:111-145 | what did not arrive of a read leaves the buffer as it was |
| EepromSpiRuns.LostReadStoresExactlyWhen | drivers/eeprom/eeprom_spi.c:132-134 | then a read writes exactly if the address begins with the code of the write command and at least two bytes are read; what memory is then |
| EepromSpiRuns.LostReadOverwrites | drivers/eeprom/eeprom_spi.c:132-134 | at 0x0210 with two address bytes: a read sets the byte at 0x1000 to zero |
| EepromI2c.FillTargetAddress | drivers/eeprom/eeprom_i2c.c:48-54 | the first packet bytes decode to the address |
| EepromI2c.FillPacket | drivers/eeprom/eeprom_i2c.c:114-117 | the packet is the low bytes of the address, and the chunk |
| EepromI2c.PacketLoopEndsExactlyWhen | drivers/eeprom/eeprom_i2c.c:115 | the 8-bit loop index reaches the end of a chunk exactly when the chunk has at most 255 bytes |
| EepromI2cRuns.WriteEndsExactlyWhen | drivers/eeprom/eeprom_i2c.c:107-132 | all packet loops of a block end exactly when pages have at most 255 bytes, or the block touches at most two pages with at most 255 bytes in each |
| EepromI2c.WriteChunk | drivers/eeprom/eeprom_i2c.c:114-128 | one packet, to the bank of the block's start, and the wait for the chip |
| EepromI2c.WriteNext | drivers/eeprom/eeprom_i2c.c:107-132 | one turn of the loop leaves the rest of it to do |
| EepromI2c.WriteChunks | drivers/eeprom/eeprom_i2c.c:107-132 | the loop, for any way of writing the rest of a block that the specification equates with this one |
| EepromI2c.WriteBlock | drivers/eeprom/eeprom_i2c.c:97-133 | leaves the chip as the specification says, whichever transfers fail |
| EepromI2cRuns.BlockWrites | drivers/eeprom/eeprom_i2c.c:97-133 | for a block in its bank, whichever transfers fail and after however many bytes: no packet leaves its page or meets a busy chip, and memory has, byte by byte, the new value where a packet brought it and the old one elsewhere |
| EepromI2cRuns.BlockWraps | drivers/eeprom/eeprom_i2c.c:97-133 | for any block, if every transfer gets through: the bank that its start selects is written like one page, what goes past its end going on at its beginning |
| EepromI2cRuns.FlatExactlyWhen | drivers/eeprom/eeprom_i2c.h:88-103 | for all memories and buffers the block is spliced in exactly when it lies in the bank that its start selects |
| EepromI2cRuns.InBankExactlyWhen | drivers/eeprom/eeprom_i2c.h:92-100 | if the I2C address carries all that the address bytes cannot, that is when first and last byte have the same bank |
| EepromI2cRuns.CrossingOverwrites | keyboards/tau4/config.h:22-27 | on that chip, sixteen bytes from 0xF8: the last eight overwrite the beginning of bank 0 |
| EepromI2c.ReadBlock | drivers/eeprom/eeprom_i2c.c:81-95 | leaves the bytes in the buffer as the specification says, whichever transfers fail |
| EepromI2cRuns.BlockReads | drivers/eeprom/eeprom_i2c.c:81-95 | if the chip got its address: what it answers, as far as the transfer went, and behind it what the buffer held |
| EepromI2cRuns.ReadsExactlyWhen | drivers/eeprom/eeprom_i2c.c:81-86 | for all memories these are the bytes asked for exactly when the start selects the bank it lies in and the block ends before the chip's address counter starts over |
| ActionLayer.TopLayerIsTopmost | quantum/action_layer.c:323-343 | the layer found is the highest active one that is not transparent, or 0 |
| ActionLayer.UpdateCacheImpl | quantum/action_layer.c:232-238 | the bit-sliced cache holds the layer in that entry; every other entry keeps its layer |
| ActionLayer.ReadCacheImpl | quantum/action_layer.c:244-254 | the layer held in the entry |
| ActionLayer.SlotsApart | quantum/action_layer.c:261-263 | distinct keys of the matrix have distinct entries |
| ActionLayer.Layers.LayerSwitchGetLayer | quantum/action_layer.c:323-343 | the search from the top, as the specification says |
| ActionLayer.Layers.UpdateSourceLayersCache | quantum/action_layer.c:260-271 | the map from entries to layers changes at the key's entry only |
| ActionLayer.Layers.ReadSourceLayersCache | quantum/action_layer.c:277-289 | the layer the map has for the key |
| ActionLayer.Layers.StoreOrGetAction | quantum/action_layer.c:299-317 | a press stores and uses the topmost layer, a release uses the stored one |
| ActionLayer.Layers.LayerMove | quantum/action_layer.c:160-162 | only the given layer is on |
| ActionLayer.Layers.LayerOn | quantum/action_layer.c:168-170 | switches on the given layer and no other |
| ActionLayer.Layers.LayerOff | quantum/action_layer.c:176-178 | switches off the given layer and no other |
| ActionLayer.Layers.LayerInvert | quantum/action_layer.c:184-186 | inverts the given layer and no other |
| ActionLayerRuns.RecallsLastPress | quantum/action_layer.c:260-289 | over any run, a key's entry recalls the layer of the last press stored in it |
| ActionLayerRuns.EntriesExactlyWhen | quantum/action_layer.c:260-289 | keys of the matrix and encoder directions have entries, and no others |
| ActionLayerRuns.ReleaseAgreesWithPress | quantum/action_layer.c:299-317 | a matrix key's release is the action of its last press, under any presses, releases and layer changes in between |
| ActionLayerRuns.EntryIsShared | quantum/action_layer.c:264-268 | the two directions of an encoder have one entry, which no other key has |
| ActionLayerRuns.EncoderReleaseAgreesExactlyWhen | quantum/action_layer.c:260-289 | a step is released with another action than it was pressed with exactly when the other direction was pressed in between, last found on a layer with another action for this one |
| EncoderAstray.ReleaseComesLate | quantum/encoder.c:175-187 | a run of the resolver that processes a step, then the step back, and only then the release of the first |
| EncoderAstray.ReleaseGoesAstray | quantum/action.c:296 | the layer code, asked in that order, releases the step with another action |
| ActionLayerRuns.NoEntryMeansLayerZero | quantum/action_layer.c:288 | a key without an entry is released on layer 0 |
| ActionLayerRuns.PressUsesTopmostLayer | quantum/action_layer.c:275-313 | a press, and while the cache is disabled a release, is the action of the topmost layer with something to say |
| DynamicMacro.Recorder.RecordKey | quantum/dynamic_macro.h:104-122 | appends the key in its direction unless it is a leading release or there is no room; the other macro is untouched |
| DynamicMacro.Recorder.RecordEnd | quantum/dynamic_macro.h:128-142 | the macro is what was recorded without the presses at its end |
| DynamicMacro.Recorder.Play | quantum/dynamic_macro.h:85-88 | hands on exactly the macro's keys, in its direction |
| DynamicMacro.Recorder.ProcessRecord | quantum/dynamic_macro.h:154-260 | the state machine over start, stop, play and ordinary keys |
| DynamicMacroRuns.RecordedIsPrefix | quantum/dynamic_macro.h:104-122 | a recording is the longest prefix that fits of what follows the leading releases |
| DynamicMacroRuns.TrimIsLongest | quantum/dynamic_macro.h:131-137 | trimming keeps the longest prefix that is empty or ends with a release |
| DynamicMacroRuns.AlwaysHealthy | quantum/dynamic_macro.h:154-260 | in every run the macros and the recording fit side by side, and a saved macro is empty or goes from a press to a release |
| DynamicMacroRuns.MacroKept | quantum/dynamic_macro.h:154-260 | a macro that is not recorded anew stays as it is |
| DynamicMacroRuns.RecordingSaves | quantum/dynamic_macro.h:201-256 | from start to first stop, exactly the trimmed part that fits is saved |
| DynamicMacroRuns.PlaysWhatWasRecorded | quantum/dynamic_macro.h:77-260 | what is played is what was recorded, whatever happened in between |
| DynamicMacroRuns.PassedOnExactlyWhen | quantum/dynamic_macro.h:200-260 | a key goes on to be handled as usual unless it starts a recording or plays by its release, or is a stop or play key during a recording; only the release of a play key plays |
| Ghosts.MoreThanOneIsTwoBits | quantum/keyboard.c:230-233 | the bit trick is true exactly for two or more bits |
| Ghosts.GhostExactlyWhenShared | quantum/keyboard.c:235-257 | a row has a ghost exactly when another row shares at least two pressed real columns |
| Ghosts.GhostsComeInPairs | quantum/keyboard.c:235-257 | so the other row has one too |
| Ghosts.GetRealKeys | quantum/keyboard.c:218-228 | the pressed columns that the keymap defines |
| Ghosts.HasGhostInRow | quantum/keyboard.c:235-257 | the loop decides that specification |
| MatrixTask.Scanner.Task | quantum/keyboard.c:507-560 | what a scan remembers, reports and acts upon; and one more tick is asked for exactly if the matrix cannot be read or is as remembered |
| MatrixTask.Scanner.ScanRow | quantum/keyboard.c:535-557 | one row: taken over and reported, or left as it was |
| MatrixTask.Scanner.ScanRows | quantum/keyboard.c:535-557 | the row loop |
| MatrixTask.Scanner.ReportRow | quantum/keyboard.c:543-554 | exactly the changed columns, in order |
| MatrixRuns.RowFolds | quantum/keyboard.c:543-556 | a row's changes bring each of its keys to its new state and no other key |
| MatrixRuns.ChangesAddUp | quantum/keyboard.c:507-560 | in every run the changes from all-up fold to the remembered matrix, each key's changes alternating |
| MatrixRuns.WithheldNotLost | quantum/keyboard.c:539-541 | after a scan a row without a ghost stands as scanned, one with a ghost as before, to be compared again |
| MatrixRuns.NoTicksWhileWithheld | quantum/keyboard.c:507-527 | as long as a row with a ghost differs from what is remembered of it, no scan asks for a tick |
| MatrixRuns.TickUnlessSomethingDiffers | quantum/keyboard.c:507-560 | a scan that asks for no tick finds a row that differs from what is remembered, and each such row has a ghost or is taken over |
| MatrixRuns.SecondScanTicks | quantum/keyboard.c:516-527 | of two scans in a row of the same matrix without ghosts the second asks for a tick |
| MatrixRuns.StillMatrixTicks | quantum/keyboard.c:516-527 | so a matrix that stays as it is, without ghosts, gets a tick with every scan after the first |
| Encoder.Encoders.constructor | quantum/encoder.c:114-172 | the left half has the first indices and the right half those behind; encoders start at their pins, without pulses |
| Encoder.Encoders.EncoderUpdate | quantum/encoder.c:189-245 | pulses, value and steps of one encoder, in 8 bits |
| Encoder.Encoders.EncoderRead | quantum/encoder.c:247-258 | all encoders of this half |
| Encoder.Encoders.StateRaw | quantum/encoder.c:263-265 | the values of this half |
| Encoder.Encoders.UpdateRaw | quantum/encoder.c:267-296 | catches up with the other half's values |
| Encoder.Encoders.StepBy | quantum/encoder.c:272-291 | the loops on the signed 8-bit difference |
| EncoderRuns.PulsesAreConserved | quantum/encoder.c:189-258 | resolution times steps plus pulses left is the sum of table steps, less than a step left, for resolutions up to 127 |
| EncoderRuns.TooFineAResolution | quantum/encoder.c:202-239 | for any finer resolution the sum is lost at the 128th pulse |
| EncoderRuns.PulsesFollowTheEncoder | quantum/encoder.c:60 | the sum agrees with the displacement modulo a cycle exactly when an even number of statuses was missed |
| EncoderRuns.SyncExactlyWhenItFits | quantum/encoder.c:271 | a sync emits what the slave moved exactly when that fits eight bits |
| EncoderRuns.MasterFollowsSlave | quantum/encoder.c:263-296 | for one encoder's moves as numbers: over any run the master emits what the slave moved, if each move fits eight bits |
| EncoderSplit.SyncMakesTheSteps | quantum/encoder.c:247-296 | readings of all encoders and then a sync: an encoder in step gets in the master's log exactly the steps of its own pins, exactly when they fit eight bits |
| EncoderSplit.MasterFollowsPins | quantum/encoder.c:189-296 | over any readings and syncs, from the slave's pins to the master's log: the steps are those of the pins, and resolution times steps plus pulses left is the sum of table steps |
| EncoderRuns.CatchUpIsTheDifference | quantum/encoder.c:267-296 | the steps of each encoder in a sync are its signed difference |
| EncoderRuns.ReadIsTheSteps | quantum/encoder.c:247-258 | the steps of each encoder in a read are those of its own reading |
| Crc8.TableIsEightSteps | quantum/crc.c:27-44 | each of the 256 entries is eight shift steps of polynomial 0x07 |
| Crc8.Crc8Table | quantum/crc.c:46-57 | the table loop computes the remainder by 0x07 |
| Crc8.Crc8Loop | quantum/crc.c:59-74 | the bit loop computes the remainder by 0x31 |
| Crc8.Crc8LoopWide | quantum/crc.c:59-74 | and the same low eight bits in a 32-bit accumulator |
| CrcDetection.CrcXor | quantum/crc.c:46-74 | linear in start value and message together |
| CrcDetection.Affine | quantum/crc.c:46-74 | so affine in the message |
| CrcDetection.DifferExactlyWhen | quantum/crc.c:46-74 | two messages of one length collide exactly when their difference leaves no remainder |
| CrcDetection.BurstsAreDetected | quantum/crc.c:46-74 | messages of any length differing in a burst of at most eight bits never collide, in either variant |
| CrcDetection.OneByteIsDetected | quantum/crc.c:46-74 | nor do messages differing in one byte |
| CrcDetection.VariantsDiffer | quantum/crc.c:27-75 | of the messages of one byte the variants agree on 0xFF and 0x12 and no other |
| OneShot.Util.SendKeyboardReport | quantum/action_util.c:259-296 | bit by bit: a modifier is in the report exactly if it is an overriding one, or not suppressed and held, weak or one-shot; the keys are those set; whether it is sent, and what becomes of the one-shot modifiers |
| OneShot.Util.Propagate | quantum/action_util.c:285-295 | only a report that differs from the last is sent, and it is the last then |
| OneShot.Util.SetOneshotLayer | quantum/action_util.c:169-180 | layer switched on, and remembered with its state if enabled |
| OneShot.Util.ResetOneshotLayer | quantum/action_util.c:185-191 | nothing remembered |
| OneShot.Util.ClearOneshotLayerState | quantum/action_util.c:196-203 | state bits cleared, the layer switched off with the last of them |
| OneShot.Util.OneshotSet | quantum/action_util.c:216-223 | enables or disables, clearing one state bit on a change |
| OneShot.Util.AddOneshotMods | quantum/action_util.c:403-411 | the mask joined to the pending ones |
| OneShot.Util.DelOneshotMods | quantum/action_util.c:413-420 | the mask taken from them |
| OneShot.Util.SetOneshotMods | quantum/action_util.c:427-438 | the mask instead of them |
| OneShot.Util.ClearOneshotMods | quantum/action_util.c:443-451 | none pending |
| OneShotRuns.PendingUntilKeyReported | quantum/action_util.c:259-275 | a queued mask is pending until a report with a key down, over any run, and gone after |
| OneShotRuns.MaskInReportsUpToFirstKey | quantum/action_util.c:259-283 | it is in every report up to and including that one, suppressed bits aside, and contributes to none after |
| OneShotRuns.HostHearsEveryChangeOnce | quantum/action_util.c:285-295 | consecutive reports differ, and the last one sent is the current report |
| OneShotRuns.ReportedExactlyWhen | quantum/action_util.c:259-333 | after every run of operations: a modifier is in the report made exactly if it is an overriding one, or is not suppressed and was added and not deleted since, or is weak, or was queued and no report with a key or other operation took it back; the keys are those set last |
| OneShotRuns.HeldIsReported | quantum/action_util.c:309-318 | a modifier once added is in every report until it is deleted, unless it is suppressed then |
| OneShotRuns.LayerOffExactlyOnce | quantum/action_util.c:169-223 | with one-shot keys enabled and disabled at will, the layer is switched off at most once, and exactly when they are enabled at the operation that clears the last of its state bits |
| OneShotRuns.EitherOrderSwitchesOff | quantum/action_util.c:196-223 | for the usual two bits: exactly when both release and other key have come, in either order, and one-shot keys are enabled at the later |
| OneShotRuns.DisabledLeavesLayerOn | quantum/action_util.c:196-203 | once the last bit is cleared, that the layer goes off then or at any later time depends on whether one-shot keys were enabled at that operation, and on nothing else |
| OneShotRuns.ALayerIsStuck | quantum/action_util.c:216-223 | released, disabled and enabled again: the layer stays on, whatever is cleared later |
| OneShotRuns.DisabledMeanwhile | quantum/action_util.c:216-223 | disabled and enabled again before the release: the layer goes off |
| KeycodeActions.Processor.ProcessAction | quantum/action.c:389-719 | the layer states and calls after layer, modifier, tapped, usage and mouse actions |
| KeycodeActions.Processor.ProcessTapMods | quantum/action.c:419-543 | one-shot modifiers, toggled ones, and a key tapped or modifiers held |
| KeycodeActions.Processor.ProcessMods | quantum/action.c:391-418 | modifiers strong or weak, reports, and the key, in order |
| KeycodeActions.Processor.ProcessTap | quantum/action.c:617-719 | tap-toggle, on/off, off/on, set/clear, one-shot, and tap or hold |
| KeycodeMeaning.LayerKeysKeepTheirMeaning | quantum/keymap_common.c:103-130 | packing TO, MO, DF, TG and OSL and processing the action is the direct layer operation, for every layer, width and layer state |
| KeycodeMeaning.OwnLayerChanges | quantum/action.c:563-680 | what becomes of the layer itself with TO, MO, TG, DF and OSL, at the press and the release |
| KeycodeMeaning.OtherLayersUndisturbed | quantum/action.c:563-607 | no other layer bit changes, but for TO and DF, which mean to |
| KeycodeMeaning.MomentaryRestoresExactlyWhenOff | quantum/action.c:586-606 | press and release of MO restore the layers exactly when the layer was off or does not exist |
| KeycodeMeaning.LayerBitopActions | quantum/action.c:563-607 | an action on four layers at a time: and, or, xor or set, on the default layers at the release, or on the active ones at the press, the release or both, bit by bit |
| KeycodeMeaning.UsageActions | quantum/action.c:547-556 | usages go to the page the action says while the key is down, and 0 at the release |
| KeycodeMeaning.LayerTapExactlyWhen | quantum/keymap_common.c:89-95 | a layer-tap has both its roles exactly when its key is none of the codes 0xF0 to 0xF4 |
| KeycodeMeaning.ModTapExactlyWhen | quantum/keymap_common.c:158-166 | a mod-tap has both its roles exactly when its key is neither of the codes 0 and 1 |
| KeycodeMeaning.OneShotModsKeepTheirMeaning | quantum/keymap_common.c:131-135 | a one-shot modifier key is a mod-tap with no key: tapped it queues its modifiers, held it is them and takes back what was queued |
| KeycodeMeaning.ModifiersKeepTheirMeaning | quantum/quantum.c:85-108 | the five packed modifier bits expand to the mask extract_mod_bits computes |
| KeycodeMeaning.PressAndReleaseMatch | quantum/action.c:391-418 | a release takes away exactly the modifiers its press added |
| KeycodeMeaning.LayerModKeepsLayerExactlyWhen | quantum/keymap_common.c:152-156 | LM keeps its modifiers, and its layer exactly when they are left-hand or the layer is odd |
| KeycodeMeaning.LayerModHolds | quantum/action.c:608-616 | LM has its layer on and its modifiers registered while it is down, with the layer that is left of it |
| KeycodeMeaning.PlainKeysAreThemselves | quantum/keymap_common.c:62-65 | letters, digits, modifiers and so on: registered as they are when pressed and unregistered when released, whatever the layers, and no layer changes |
| KeycodeMeaning.MouseKeysAreThemselves | quantum/keymap_common.c:74-76 | mouse keys are handed to the mouse |
| KeycodeMeaning.OtherKeysDoNothing | quantum/keymap_common.c:77-79 | the transparent keycode has the transparent action, and codes outside the ranges modelled do as no key does |
| KeycodeMeaning.RemappedPlainKeys | quantum/keymap_common.c:51-53 | a key remapped to an ordinary one is that key |
| KeycodeMeaning.LayerTapOperations | quantum/action.c:634-642 | LT with the code of a layer operation switches its layer on and off, off and on, or to it and to none |
| KeycodeMeaning.OneShotLayerCalls | quantum/action.c:644-680 | what a one-shot layer key asks of the one-shot state, and that it asks nothing while one-shot keys are disabled |
| KeycodeMeaning.TapToggleExactlyWhen | quantum/action.c:621-632 | TT held inverts its layer while it is down; tapped less than five times it changes nothing, and from the fifth tap on the layer is the other way round |
| KeycodeMeaning.ModsTapToggleExactlyWhen | quantum/action.c:486-496 | modifiers with the tap-toggle code are registered after n taps exactly if n is at least five |

## Left out

- `process_record`'s features and all user and keyboard hooks: records are appended to a trace, hooks are the identity, and what layers are does not feed back except through the parameters.
- Combos, auto shift, retro shift, retro tapping, swap hands and tap hints in tapping and action handling.
- In-place changes that `process_record` makes to a record it is given, and the recursive release at quantum/action.c:871-877: records are values.
- Calls of the resolver from within `process_record`.
- The overflow's `clear_keyboard`, which acts on reports only.
- HexText.HexFileRoundTrip: the byte count and checksum of a record are printed but, as in the code, not read; offsets that pass 64K carry on, as in the code.
- Command line, drives, file access, the family table and the printed summary of the converter; lists of lines that `is_hex` would not let through.
- Targets on which C's `int` has 16 bits: it is taken to be at least 32 bits wide.
- Uf2Conv.Converter.ConvertFromUf2: does not say what start address is left behind by a failure, nor does IntelHex.HexConverter.ConvertFromHexToUf2, because the script ends there.
- Callbacks that change the executor table while they run, and several tables sharing the token counter.
- DeferredDrift.NoDrift: is about runs on a clock that only goes forward and delays below 2^31, as the signed comparison needs.
- Keyboard-level VIA hooks, the raw HID protocol, and getting and setting the macro buffer from the host.
- The text of `send_string`: chunks are handed to a sender that records them.
- The write-protect pin of the I2C driver.
- EepromI2c.WriteBlock: asks for chunks of at most 255 bytes, because otherwise a packet loop does not end (EepromI2cRuns.WriteEndsExactlyWhen).
- EepromI2cRuns.FlatExactlyWhen: asks for pages that divide the bank, as those of all chips do.
- The status register of the SPI EEPROM and its block protection: of the commands only write, read, enable and disable are modelled, and bytes are read by sending zeros, as on AVR.
- The chips' timing: waiting is a script of answers, and a script that has run out is a dead bus.
- Erasing a whole EEPROM, which writes zero pages in a loop, and driver initialisation.
- `layer_clear`, `layer_or`, `layer_and`, `layer_xor`, tri-layers and the releases that strict layer release makes.
- Nested playback of dynamic macros, and the clearing of the keyboard and saving of the layer state around recording and playing.
- Debug printing and scan-rate counting in `matrix_task`, and the millisecond check in `generate_tick_event`.
- `ENCODER_DEFAULT_POS`, what an encoder step is mapped to, and how a pin is read: what was read is given.
- EncoderRuns.MasterFollowsSlave: takes the moves as numbers; EncoderSplit.MasterFollowsPins derives them from the pins.
- Crc8.Crc8LoopWide: the accumulator shown is 32 bits wide.
- Time-outs of one-shot keys, one-shot swap hands, locked one-shot modifiers and layers, NKRO reports and the key codes inside a report.
- KeycodeActions.Processor.ProcessAction: swap-hands actions do nothing in it, and the clearing of a one-shot layer by another key (quantum/action.c:369-386, 871-877) and the options around tapped modifiers (retro shift, held-key cancelling, dummy modifier codes) are not in it.
- KeycodeMeaning.LayerKeysKeepTheirMeaning: keycode and modifier remapping is the identity; system, consumer and swap-hands keycodes and `ONESHOT_TAP_TOGGLE` are not modelled.
- LED, RGB, audio and other output features, leader, secure and caps word, and the remaining scripts.
