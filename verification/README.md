# Verified models of the WARP charger build hooks and provisioning testers

This project models the hard logic of the WARP charger firmware repository that runs outside
the charger: the build hooks under `software/` and the testers under `provisioning/`. It proves
what those programs are relied on for. To check the proofs, use

    dafny verify dfyconfig.toml

| file | what it is about |
|---|---|
| `Lines.dfy`, `Bytes.dfy` | lines, stripping, searching; bytes, little-endian numbers, burning by "or" |
| `ActionLoop.dfy` | the worker thread of the electrical tester, for every feed and every device answer |
| `TesterQueue.dfy` | callers, queue and worker together: which events can be lost |
| `Interlock.dfy`, `PowerState.dfy` | power sequencing on top of them: the outlet is switched only without power, and what calls have switched when they return |
| `BuildCache.dfy`, `EmbedRender.dfy` | the two-digest cache of embedded data under crashes, and the text it protects |
| `Hyphenation.dfy`, `Utf8.dfy` | soft hyphens in translations, on the encoded bytes |
| `TsxEscape.dfy`, `TsxPasses.dfy`, `TsxRoundTrip.dfy` | escaping TSX regions, and exactly when that is undone |
| `TranslationMerge.dfy` | merging the translations of all modules |
| `Blackbox.dfy` | the response parser of the electrical tester's measuring device |
| `Radix.dfy`, `Identity.dfy`, `Stage0.dfy` | numerals, the eFuse block with UID and passphrase, burning and reading back |
| `SlotPipeline.dfy` | the four-slot tester from the secure boot check to the reports |
| `TestHistory.dfy`, `Voltages.dfy` | retried measurements and their history; the bounded contactor recovery |
| `ModuleOrder.dfy`, `Changelog.dfy` | two validators whose local checks have global consequences |
| `Flasher.dfy` | the packet plan for Co-MCU Bricklets |
| `RepoOverview.dfy` | the managed block that is copied between READMEs |

Code that changes state is modelled by methods and classes that are proved against functions;
what the code is for is then proved about those functions, for all inputs and all runs.

Some expectations a reader may have turned out to be false. For each of them the exact condition
under which it holds is proved:

* An event of the action loop is lost exactly when its position is queued again before it is set
  (`TesterQueue.LostMeansOvertaken`).
* The digest of embedded data covers neither the C++ types nor the data filter. After any history,
  files that a call reuses are current if and only if the input last rendered had the same types
  and filtered data (`BuildCache.ReusedFilesAreCurrentExactly`).
* Unescaping does not restore every escaped TSX region. It does if and only if no word of a
  delimiter stands in it between what will be three stars on each side
  (`TsxRoundTrip.RoundTripExactly`).
* An accepted changelog may repeat a version after a preliminary one
  (`Changelog.RepeatedVersionIsAccepted`, `IncreasesExactly`).

The interlock of the tester is a promise about its callers too. The test procedures connect power
on their own only after `power_on` has returned, and an error in a call ends the procedure
(provisioning/provision_stage_2_warp2.py:825-837, 1123-1135, 1417-1421 and 1470). For all runs of
such callers the outlet relay is switched only without power (`Interlock.OutletRunsWithPowerOff`).
To go on after an outlet command was given up, and connect power with the internal call, would be
misuse: `Interlock.UnsettledOutletIsUnsafe` shows what it could lead to.

Where the code does something its surroundings do not suggest, the model follows the code: a
changelog whose first entry has a patch number of 90 or more stops the changelog check with an
index error, since the guard looks at the entry before it, so `Changelog.Accepted` refuses it. The
one exception is the second attempt of the Co-MCU flasher, listed below.

## Model

| member | source | states |
|---|---|---|
| ActionLoop.EveryRun | provisioning/provision_stage_3_warp2.py:193-237 | in every run, for every feed and device answer, the worker's dictionaries, counters and events say exactly what the log of installations and runs says |
| ActionLoop.EventsMeanCompletion | provisioning/provision_stage_3_warp2.py:213-237 | an event is set if and only if the function queued with it completed at a time at which it was the installed one for its position |
| ActionLoop.TriesAtHead | provisioning/provision_stage_3_warp2.py:217-237 | at the loop head every try counter is between one and three |
| ActionLoop.DiesAfterThreeFailures | provisioning/provision_stage_3_warp2.py:222-237 | the loop dies if and only if one position has failed three rounds in a row since its last success or installation; no position ever exceeds three |
| ActionLoop.GoodTurnFiresAll | provisioning/provision_stage_3_warp2.py:199-237 | after a turn in which every device answers, no event is pending and the event of every installed function is set, also the one just fed |
| ActionLoop.Thread.Turn | provisioning/provision_stage_3_warp2.py:199-237 | one turn of the loop in place is the installation followed by the steps of all positions in order, and keeps the invariant |
| ActionLoop.Thread.RunAt | provisioning/provision_stage_3_warp2.py:219-237 | running one function changes its counter, event and log entry as the step of the specification does |
| ActionLoop.TurnIsRun | provisioning/provision_stage_3_warp2.py:199-237 | a turn is a sequence of steps of a run, so all promises about runs hold after it |
| TesterQueue.EveryRunIsSound | provisioning/provision_stage_3_warp2.py:193-237 | whatever callers put and however it interleaves, the worker holds the last taken action of each position, set events have completed, and later completions are never of older actions |
| TesterQueue.LastBefore | provisioning/provision_stage_3_warp2.py:213-217 | the last put for a position among the first n: it is for that position and none after it is |
| TesterQueue.LostMeansOvertaken | provisioning/provision_stage_3_warp2.py:213-237 | an event the worker has taken is lost if and only if it is not set and another action for its position was taken after it |
| TesterQueue.LostForever | provisioning/provision_stage_3_warp2.py:213-237 | no step of the run brings a lost event back |
| TesterQueue.WaitingLosesNoEvent | provisioning/provision_stage_3_warp2.py:265-299 | if callers wait for the earlier events of a position before they queue it again, no event is ever lost |
| Interlock.ScriptIsAllowed | provisioning/provision_stage_3_warp2.py:240-299 | every call queues an outlet command only after both power relays were told to go off and did, and connects power only after the last outlet command completed |
| Interlock.ScriptSettles | provisioning/provision_stage_3_warp2.py:240-299 | `power_on` and `power_off` that return leave a completed outlet command behind from any state, all other calls leave the outlet as it is |
| Interlock.CallersAreDisciplined | provisioning/provision_stage_3_warp2.py:620-659 | if every direct power-on is issued while no call has been given up since the last `power_on` or `power_off`, then at each of them the last outlet command has completed |
| Interlock.TestsKeepOrder | provisioning/provision_stage_2_warp2.py:825-837 | callers whose tests end with their first error, and call only `power_off` or `power_on` after it, keep that order |
| Interlock.EveryRunKept | provisioning/provision_stage_3_warp2.py:620-659 | for callers in that order, the order of puts that the scripts rely on is an invariant of every interleaving of calls, timeouts, rounds and answers |
| Interlock.OutletRunsWithPowerOff | provisioning/provision_stage_3_warp2.py:620-659 | in every run of callers in that order, an outlet command that has not completed is run only while the last completed and the installed commands of relays 00D and 01A are off |
| Interlock.UnsettledOutletIsUnsafe | provisioning/provision_stage_3_warp2.py:240-299 | the order is needed: from every reachable idle state with an outlet command left unfinished, a direct power-on leads to the outlet command being run under power, with every device answering |
| Interlock.OutletCanBeLeftUnsettled | provisioning/provision_stage_3_warp2.py:620-636 | a concrete run of `power_off` that times out reaches such a state |
| PowerState.PowerOnSwitches | provisioning/provision_stage_3_warp2.py:638-659 | in every run in which `power_on` has returned, the last completed command of 00D is on, of 01A channel by channel on exactly for L2 and L3 as asked for, and of 02A selects the outlet |
| PowerState.PowerOffSwitches | provisioning/provision_stage_3_warp2.py:620-636 | in every run in which `power_off` has returned, the last completed commands of all channels of 00D, 01A and 02A are off |
| PowerState.WarpPowerSwitches | provisioning/provision_stage_3_warp2.py:240-263 | the same for power that a test procedure has connected on its own |
| PowerState.RelaysAreReset | provisioning/provision_stage_3_warp2.py:630-634 | both calls also leave the voltage monitors and front panel off, type 2 PE connected, CP-PE in state A and the meter at Type 2, L1 |
| BuildCache.Output.CheckDigest | software/util.py:90-136 | an update is needed unless both digest files hold the digest of script and data; the reason is always a specific one and names a missing file exactly when one is missing |
| BuildCache.Output.RemoveDigest | software/util.py:138-143 | both digest files are gone, nothing else changed |
| BuildCache.Output.StoreDigest | software/util.py:145-155 | both digest files hold the digest, the shared one written last |
| BuildCache.Output.EmbedDataInternal | software/util.py:157-232 | both embedded files are replaced by the rendering of the given types and data |
| BuildCache.Output.EmbedDataWithDigest | software/util.py:240-260 | one call performs the planned file operations in their order, or none when it reuses the files |
| BuildCache.DigestIsAway | software/util.py:240-260 | from its second operation until its last, a call that renders keeps the shared digest away |
| BuildCache.FilesAreWritten | software/util.py:240-260 | both files are the rendering from the sixth operation on |
| BuildCache.CallKeepsConsistent | software/util.py:240-260 | a call cut short after any operation, with a torn write or not, keeps the shared digest vouching for the input last rendered |
| BuildCache.AlwaysConsistent | software/util.py:90-155 | so after every history of builds by any environments and any versions of the script, crashes and lost files |
| BuildCache.ReusedFilesWereRendered | software/util.py:90-136 | files that are reused are the rendering of the input last rendered, which had the same script and data, if digests do not collide and no other division of the bytes into script and data was embedded |
| BuildCache.ChangeIsRendered | software/util.py:106-136 | a call with another script or other data than were last rendered renders again, and the files are then its rendering |
| BuildCache.DigestCoversScriptAndData | software/util.py:106-119 | for an injective hash and every history, a call with the same script and other data than were last rendered, or the same data and another script, renders again |
| BuildCache.ReusedFilesAreCurrent | software/util.py:240-260 | reused files are current wherever the calls of the history with the same script and data had the same types and filtered data |
| BuildCache.ReusedFilesAreCurrentExactly | software/util.py:106-119 | the digest covers script and data only: after any history, reused files are current if and only if the input last rendered has the same types and filtered data |
| BuildCache.StaleAfterGeneratorChange | software/util.py:106-119 | after any history and a call that renders, a call with the same script and data reuses the files, and they are current if and only if its types and filtered data are the same |
| BuildCache.CompletedBuildIsReused | software/util.py:240-260 | a completed call repeated with unchanged data rewrites nothing |
| EmbedRender.RenderBody | software/util.py:189-198 | the read-ahead loop writes lines of twelve bytes without a trailing comma and counts every byte |
| EmbedRender.RenderCpp | software/util.py:168-207 | the text of the source file: includes, array, length and, for empty data, the warning |
| EmbedRender.CppHoldsData | software/util.py:187-200 | reading the array back from the generated text gives exactly the embedded data |
| EmbedRender.CppDeclares | software/util.py:187-201 | the source file declares the array with its type and name and the length with its type; the decimal printed for the length is the number of bytes |
| EmbedRender.HeaderDeclares | software/util.py:229-230 | the header declares both with their types |
| EmbedRender.IncludesExactly | software/util.py:172-185 | each header is included exactly if one of the two types needs it |
| EmbedRender.CppDeterminesData | software/util.py:187-207 | two source files for one variable are equal only if the data are |
| EmbedRender.HeaderDeterminesTypes | software/util.py:209-232 | two headers for one variable are equal only if both of its types are |
| Hyphenation.TableIsSound | software/hyphenations.py:2247-2247 | deleting the soft hyphens from the right column gives the left column, for every word list |
| Hyphenation.LookUp | software/pio_hooks.py:443-455 | the right column of the first pair for the word, or the word itself exactly if there is none |
| Hyphenation.WordIsReplaced | software/pio_hooks.py:443-457 | wherever a text has a maximal word, hyphenating hyphenates what is before and after it and puts the replacement of the word in between |
| Hyphenation.NoWordIsKept | software/pio_hooks.py:457-457 | text without a word is not changed |
| Hyphenation.TableRow | software/hyphenations.py:2247-2247 | the right column is the word with a soft hyphen for each dash |
| Hyphenation.SubstitutedSpells | software/pio_hooks.py:443-457 | hyphenating a text adds soft hyphens and changes nothing else |
| Hyphenation.Hyphenate | software/pio_hooks.py:434-457 | the pass stops exactly on texts with a soft hyphen in either spelling, and otherwise replaces every maximal word |
| Hyphenation.GetText | software/pio_hooks.py:465-478 | collecting rows and columns of bytes between two points and decoding them gives the text of the flat slice between them, or fails exactly if that does not decode |
| Hyphenation.CollectRows | software/pio_hooks.py:466-476 | the row loop collects exactly the bytes of the flat slice |
| Utf8.DecodeEncode | software/pio_hooks.py:460-460 | decoding inverts encoding on every text |
| Utf8.KnownEncodings | software/pio_hooks.py:460-460 | the encoding of characters of each length |
| Utf8.DecodeAppend | software/pio_hooks.py:478-478 | decoding goes on behind a decodable part, so text cut between characters decodes piece by piece |
| Hyphenation.TextSplit | software/pio_hooks.py:465-478 | text between points that do not divide a character joins without gap or overlap |
| Hyphenation.OffsetMonotone | software/pio_hooks.py:465-478 | points in row and column order are in order in the flat text and within it |
| Hyphenation.EnabledChild | software/pio_hooks.py:503-521 | the flag handed down to a child is the one its whole path determines: inside the translation object and past no key, subscript, call, attribute or type |
| Hyphenation.ProcessLeaf | software/pio_hooks.py:493-501 | a leaf writes the text since the last leaf and its own, and moves the cursor to its end |
| Hyphenation.ProcessChildren | software/pio_hooks.py:503-523 | the children of a node together write every leaf below it once, in document order |
| Hyphenation.ProcessNode | software/pio_hooks.py:490-525 | the same for a whole subtree; it stops exactly if a selected leaf is refused |
| Hyphenation.HyphenateTranslation | software/pio_hooks.py:459-527 | deleting every soft hyphen from the result gives exactly the input, up to the end of the root node, with the rows and columns of the encoded bytes |
| Hyphenation.WholeText | software/pio_hooks.py:527-527 | that is the whole input when the root node ends where the text ends |
| TsxEscape.EscapeShows | software/pio_hooks.py:348-363 | the three passes of replacement spell out each fragment tag and backtick of the text, and only those |
| TsxEscape.EscapedHasNoDelimiter | software/pio_hooks.py:348-363 | the escaped form of every text contains none of the three delimiters, so later passes find nothing in it |
| TsxPasses.EscapeStable | software/pio_hooks.py:348-369 | restoring delimiters in any text does not change its escaped form |
| TsxPasses.RoundTripIsQuiet | software/pio_hooks.py:348-369 | the three passes restore a text if and only if none of them finds a match that is not a delimiter of the text |
| TsxRoundTrip.RoundTripExactly | software/pio_hooks.py:348-369 | unescaping an escaped text gives it back if and only if no word of a delimiter stands in it between three stars, its own or those of a neighbouring delimiter that is still spelled out |
| TsxRoundTrip.EscapeRoundTrip | software/pio_hooks.py:348-369 | in particular for every text without one of the three words |
| TsxRoundTrip.SpelledOutMarkIsLost | software/pio_hooks.py:348-369 | and for no text that already has a spelled-out delimiter |
| TranslationMerge.UpdateTranslation | software/pio_hooks.py:299-320 | merging succeeds exactly on compatible dictionaries and gives their union |
| TranslationMerge.CompatibleExactly | software/pio_hooks.py:306-320 | dictionaries are compatible if and only if no key path is a text in one and present in the other |
| TranslationMerge.Union | software/pio_hooks.py:306-320 | the union of two compatible dictionaries has exactly the keys of both |
| TranslationMerge.MergeModules | software/pio_hooks.py:1877-1877 | merging one module after the other into what was collected is the merge of the list |
| TranslationMerge.MergeAllSucceeds | software/pio_hooks.py:299-320 | merging a list of modules succeeds exactly if no two of all dictionaries collide |
| TranslationMerge.MergeAnyOrder | software/pio_hooks.py:299-320 | every order of the modules succeeds or none does, and all give the same dictionary |
| TranslationMerge.MergedTexts | software/pio_hooks.py:299-320 | the texts of the result are the disjoint union of the texts of the parts |
| TranslationMerge.UnionTexts | software/pio_hooks.py:306-320 | at every key path the union has the text of whichever part has one, and never both have |
| TranslationMerge.OverrideTranslation | software/pio_hooks.py:306-320 | overriding succeeds exactly if every dictionary of the override at a known key path meets a dictionary, ignores unknown keys, and gives the overridden translation |
| TranslationMerge.OverridableExactly | software/pio_hooks.py:306-320 | an override can be applied if and only if it has no dictionary where the translation has a text |
| TranslationMerge.OverrideAddsNoPath | software/pio_hooks.py:308-320 | overriding never creates a key path; a text that changes is the override's, and every override of an existing path takes effect |
| Blackbox.BbCall | provisioning/blackbox.py:107-163 | whatever the fragmentation, the outcome is the one verdict that the lines of the received stream explain: which line ends the call, what was collected before it, and what the call makes of both |
| Blackbox.OneVerdict | provisioning/blackbox.py:134-163 | for every stream there is exactly one such verdict |
| Blackbox.ErrorFails | provisioning/blackbox.py:148-149 | if the first line that is not blank after stripping starts with the error prefix, the call fails with the rest of that line |
| Blackbox.SuccessMeans | provisioning/blackbox.py:151-163 | a call succeeds only on the done line or on the ending line of its own request, and its list is the stripped lines before it that are not blank, in order |
| Blackbox.SaysTrim | provisioning/blackbox.py:139-139 | what stripping leaves has no space at either end, only spaces were taken away, and there is only one such text |
| Blackbox.Drain | provisioning/blackbox.py:134-163 | the inner loop decides the call on the buffered lines, or leaves a buffer without a line end from which the rest of the stream decides the same |
| Blackbox.CallTwice | provisioning/blackbox.py:107-163 | two splittings of one stream into non-empty chunks give the same success flag, responses or decode failure |
| Blackbox.DecidedIsStable | provisioning/blackbox.py:134-163 | once a line has ended the call, later bytes and the end of the stream do not matter |
| Blackbox.UndecidedReportsEnding | provisioning/blackbox.py:121-128 | a stream without such a line reports exactly how it ended |
| Radix.EncodeNumber | provisioning/provision_common/zbase32.py:3-11 | the loop computes the numeral of the number |
| Radix.DecodeNumber | provisioning/provision_common/zbase32.py:13-26 | the loop from the right computes the number, and fails exactly on a foreign character |
| Radix.DecodeEncode | provisioning/provision_common/zbase32.py:3-26 | decoding inverts encoding on every natural number |
| Radix.EncodeDecode | provisioning/provision_common/zbase32.py:3-26 | encoding inverts decoding on every numeral without a superfluous leading zero digit |
| Radix.LeadingDigit | provisioning/provision_common/zbase32.py:13-26 | the first digit of a numeral is the most significant one |
| Radix.AlphabetsAreDistinct | provisioning/provision_common/zbase32.py:1-1 | both alphabets have 32 and 58 distinct characters |
| Identity.CalculatePassphrase | provisioning/provision_common/wifi_pass.py:45-67 | the four groups, read as base58 numbers, are the four little-endian quarters of the subkey modulo 58^4 in their order, for the key with MAC bytes at 0, 1 and 23 and the block elsewhere |
| Identity.DerivedShape | provisioning/provision_common/wifi_pass.py:61-67 | it always is four groups of four base58 characters, for every key derivation |
| Identity.DerivedIgnoresReserved | provisioning/provision_common/wifi_pass.py:49-54 | it does not depend on bytes 0, 1 and 23 of the block |
| Identity.GenerateBlock | provisioning/provision_common/provision_common.py:332-381 | the scattered stores of both layouts give the 32 bytes, UID and passphrase of the specification |
| Identity.BlockLayout | provisioning/provision_common/provision_common.py:353-381 | where the generated block holds the UID, the four chunks or the random bytes, and that all else is zero |
| Identity.Block3ToPayload | provisioning/provision_common/provision_common.py:223-258 | reading the block as the specification does, with the list of chunks filled place by place |
| Identity.ReadBack | provisioning/provision_common/provision_common.py:223-258 | for every UID number from 1 to 2^32-1 and all random material, reading a generated block picks the writer's encoding and gives back its UID and passphrase, of the printed shape |
| Identity.ReservedBytes | provisioning/provision_common/provision_common.py:353-381 | bytes 0, 1 and 23 stay zero in both layouts |
| Stage0.Station.GetEspefuseTasks | provisioning/provision_common/provision_common.py:192-218 | what is left to burn, or a stop on fuses that make no sense |
| Stage0.Station.HandleBlock3Fuses | provisioning/provision_common/provision_common.py:297-390 | block 3 is burned only if asked for, and only set bits are added |
| Stage0.Station.Provision | provisioning/provision_stage_0_warp2.py:46-66 | check, burn, read again and compare: the fuses and the reported identity |
| Stage0.CompletedRunSettles | provisioning/provision_stage_0_warp2.py:55-66 | a run that completes leaves its identity and the flash voltage in the fuses, from whatever state it started, and only on a chip with free key blocks |
| Stage0.OddChipStops | provisioning/provision_common/provision_common.py:192-216 | used key blocks, an unexpected flash voltage or half an identity stop the run and leave the fuses alone |
| Stage0.IdentityIsFinal | provisioning/provision_stage_0_warp2.py:46-66 | after a completed run and any number of further ones, no run asks to burn block 3 again, it never changes, and every run reports that same identity or stops |
| Stage0.BlankChip | provisioning/provision_stage_0_warp2.py:46-66 | a blank chip gets exactly the generated identity, unless the derived passphrase is the one of an all-zero block, and then the run stops |
| SlotPipeline.Tester.CheckSecureBoot | provisioning/provision_warp_esp32_ethernet_brick_v2.py:883-897 | the slots are divided among three dictionaries by their answer, each with its port |
| SlotPipeline.Tester.DropFailed | provisioning/provision_warp_esp32_ethernet_brick_v2.py:995-1006 | a stage over all slots drops exactly those for which it failed and touches nothing else |
| SlotPipeline.Tester.RecoverLocked | provisioning/provision_warp_esp32_ethernet_brick_v2.py:903-932 | the slots that print both UID and passphrase are recovered with both |
| SlotPipeline.Tester.ReadAccesses | provisioning/provision_warp_esp32_ethernet_brick_v2.py:1017-1041 | every slot gets a report, those that tell their name stay with it |
| SlotPipeline.Tester.AddLocked | provisioning/provision_warp_esp32_ethernet_brick_v2.py:1043-1057 | recovered slots join with their port, name, passphrase and a report |
| SlotPipeline.Tester.MeasureVoltages | provisioning/provision_warp_esp32_ethernet_brick_v2.py:1087-1105 | the voltage of every slot is in its report and slots out of range are dropped |
| SlotPipeline.Tester.EncryptAndSecure | provisioning/provision_warp_esp32_ethernet_brick_v2.py:1137-1154 | failed slots are dropped, the others get an end time |
| SlotPipeline.Tester.WriteReports | provisioning/provision_warp_esp32_ethernet_brick_v2.py:1158-1186 | exactly one report for each slot with a name, marked as failure if the slot was dropped |
| SlotPipeline.PassedAllMeans | provisioning/provision_warp_esp32_ethernet_brick_v2.py:883-1154 | the checks that apply, outcome by outcome: recovery for a locked brick, flashing only without secure boot, and a voltage from 3135 to 3465 mV |
| SlotPipeline.SlotMeans | provisioning/provision_warp_esp32_ethernet_brick_v2.py:883-1154 | the composition of all stages for one slot is the set of checks that apply to it |
| SlotPipeline.Tester.Run | provisioning/provision_warp_esp32_ethernet_brick_v2.py:883-1213 | for all outcomes, a slot is left for label printing if and only if it passed every check that applies to it, at its own port, with the name and passphrase it told, or the prefix with its UID and the passphrase it printed when locked; each slot with a name has exactly one report, marked failure if and only if a later check failed |
| TestHistory.Report.ShiftReportItem | provisioning/provision_stage_3_warp2.py:1010-1017 | the recursion ends on every report and leaves the shifted report |
| TestHistory.Report.RetryZtest | provisioning/provision_stage_3_warp2.py:1019-1053 | all attempts but the last were aborted, their number is bounded, how it ends, and what the report holds |
| TestHistory.ShiftMovesChain | provisioning/provision_stage_3_warp2.py:1010-1017 | every entry of the unbroken chain moves exactly one place |
| TestHistory.ShiftKeepsOthers | provisioning/provision_stage_3_warp2.py:1010-1017 | nothing else is touched, and the place that is overwritten was free |
| TestHistory.AttemptsKeepHistory | provisioning/provision_stage_3_warp2.py:1019-1053 | after n attempts the history is the attempts in reverse order followed by everything from before |
| TestHistory.AttemptPlaces | provisioning/provision_stage_3_warp2.py:1019-1053 | the last attempt is under the key and the i-th older one i places further |
| TestHistory.AttemptsKeepOthers | provisioning/provision_stage_3_warp2.py:1019-1053 | keys off the chain are never touched |
| Voltages.Judge | provisioning/provision_stage_3_warp2.py:871-905 | the verdict is the one of the first phase on which Type-2 or the meter is wrong, Type-2 first |
| Voltages.GoodMeans | provisioning/provision_stage_3_warp2.py:893-905 | nothing is wrong if and only if each voltage is at least 200 V or at most 5 V as expected, by Type-2 and by the meter |
| Voltages.VerifyVoltages | provisioning/provision_stage_3_warp2.py:871-905 | how many readings the check uses with the recovery as callback, that all but the last lack Type-2 voltage only, and that it succeeds exactly if the last has all voltages |
| Voltages.ClearContactor | provisioning/provision_stage_3_warp2.py:1097-1114 | the same for the recovery, with one try less |
| Voltages.VerifyAllPhases | provisioning/provision_stage_3_warp2.py:1139-1140 | at most sixteen readings; success if and only if one of the first sixteen has all six voltages and all before it lack Type-2 voltage only |
| ModuleOrder.FindModuleSpace | software/pio_hooks.py:664-677 | the first module of that name, or that there is none, or only one with other capitals |
| ModuleOrder.GetAndCheckDuplicates | software/pio_hooks.py:89-106 | the names a list stands for without repetition, `*` for all other modules; a stop exactly if `*` is not alone |
| ModuleOrder.GenerateModuleDependencies | software/pio_hooks.py:88-217 | the five loops accept a section exactly if each entry fits, and give access to the enabled required and optional modules |
| ModuleOrder.CheckEnvironment | software/pio_hooks.py:1451-1556 | the build goes on exactly if there is no duplicate and every section passes |
| ModuleOrder.AcceptedExactly | software/pio_hooks.py:88-217 | all sections pass if and only if the duplicate-free list is a linear extension of all After and Before constraints, closed under Requires and free of Conflicts, and every section by itself is tidy |
| ModuleOrder.NoCycle | software/pio_hooks.py:182-210 | the constraints of an accepted environment have no cycle of any length |
| ModuleOrder.BeforeAllIsFirst | software/pio_hooks.py:197-210 | a module that is to be loaded before `*` is the first one |
| Changelog.GetChangelogVersion | software/pio_hooks.py:37-86 | the checks accept exactly the lists in which neighbours of one kind are successors, and return the oldest and the newest version |
| Changelog.RunIncreases | software/pio_hooks.py:61-75 | within a run of one kind, versions strictly increase |
| Changelog.PatchIsDistance | software/pio_hooks.py:61-75 | two entries of one line in a run differ in patch by their distance in the list |
| Changelog.NoPatchIsMissing | software/pio_hooks.py:61-75 | so every patch between them is in the list, at the place its number says |
| Changelog.PreliminaryRunIsOneLine | software/pio_hooks.py:61-75 | a run of preliminary versions stays in one line and is gap-free |
| Changelog.RepeatedVersionIsAccepted | software/pio_hooks.py:61-62 | across a change of kind nothing is checked: a version can repeat |
| Changelog.IncreasesExactly | software/pio_hooks.py:61-75 | an accepted list increases throughout if and only if it does at each change of kind |
| Flasher.FindMagic | provisioning/comcu_flasher.py:117-125 | the last place of the magic number, if there is one |
| Flasher.PlanIncreasesExactly | provisioning/comcu_flasher.py:58-67 | for every length, the plan is strictly increasing if and only if it writes all or the page of the magic number ends before the last four packets |
| Flasher.PlanInRange | provisioning/comcu_flasher.py:58-67 | every packet lies within the image, for every length and magic position |
| Flasher.WholePagesIncrease | provisioning/comcu_flasher.py:58-67 | for images of whole pages the plan is always strictly increasing |
| Flasher.CoveredMeans | provisioning/comcu_flasher.py:58-67 | the plan covers every address except whole pages strictly between the page of the magic number and the last |
| Flasher.AttemptMeans | provisioning/comcu_flasher.py:58-87 | for images of whole pages, the flash then is the whole image if it agreed with the image on the pages that are left out |
| Flasher.WriteFirmware | provisioning/comcu_flasher.py:71-87 | succeeds exactly if each packet got through in one of two chances; then the flash is the image where covered and unchanged elsewhere, and never anything else |
| Flasher.WriteBrickletPlugin | provisioning/comcu_flasher.py:115-164 | after an accepted first attempt the flash is the image where the plan for the last magic number covers it, which for images of whole pages is all but those pages; after a checksum error and a second attempt it is all of such an image |
| RepoOverview.FindMarkerSpan | update_repo_overview.py:62-70 | finds the block exactly when there is one |
| RepoOverview.ExtractCanonical | update_repo_overview.py:50-59 | the stripped lines of the block |
| RepoOverview.BuildNewReadme | update_repo_overview.py:73-92 | the README with its block replaced, or nothing exactly when it has none |
| RepoOverview.RewrittenSpan | update_repo_overview.py:73-92 | the new block is found exactly where it was put, with the same head and tail |
| RepoOverview.RewriteIdempotent | update_repo_overview.py:73-92 | rewriting again changes nothing |
| RepoOverview.RewriteExtracts | update_repo_overview.py:50-92 | extracting from the result gives the canonical block back |
| RepoOverview.RewriteKeepsSurroundings | update_repo_overview.py:73-92 | what stood before and after the block is kept up to line breaks next to it |
| RepoOverview.RewriteSpacing | update_repo_overview.py:80-92 | the block stands at the start or behind exactly one blank line, is followed by the end or exactly one blank line, and the file ends with one line break |

## Left out

- The firmware, the web interface and the generated device bindings.
- Calls to devices, esptool, espefuse, the network, git and the printer: only their outcomes appear, as inputs.
- Time: sleeps, the monoflop duration and the length of timeouts; a wait of a tester call may give up at any moment.
- TsxEscape.EscapeShows: the JSON quoting of the escaped text.
- Hyphenation.Hyphenate: does not collect the list of missing words.
- Hyphenation.HyphenateTranslation: assumes what the parser promises, that leaf spans are ordered, lie within the text and do not divide a character; text after the end of the root node is not part of the result.
- TranslationMerge.UpdateTranslation: dictionaries are values, so neither sharing of sub-dictionaries between inputs and result nor a partly updated dictionary after an exception is modelled.
- BuildCache.Output.EmbedDataWithDigest: the environment's digest path is one and the same for checking, removing and storing; builds of several environments do not overlap in time; the list of generated files is not modelled.
- BuildCache.ReusedFilesAreCurrentExactly: needs digests of one fixed length that do not collide with the current one in the history, and that no other division of the same bytes into script and data was embedded; other versions of the script may write anything, but by the same file operations.
- TranslationMerge.MergeModules: the override that follows each module is modelled by itself.
- Blackbox.CallTwice: the buffer quoted in the text of a decode exception depends on the fragmentation and is left out of the comparison.
- Radix.EncodeNumber: base58 is the same algorithm over the alphabet at provisioning/print-esp32-label.py:16; its own code is not part of this model.
- Identity.CalculatePassphrase: the key derivation is an arbitrary function of the 32-byte key.
- Identity.Block3ToPayload: the two-integer UID format and the parsing of MAC address texts.
- Flasher.WriteBrickletPlugin: the waits for the bootloader and the firmware mode; the second attempt writes the image, where provisioning/comcu_flasher.py:150 passes its path.
- Interlock.OutletRunsWithPowerOff: a command that fails halfway may have switched one of its two channels; only completed commands are compared. Outlet names that `power_on` refuses are not modelled.
- ModuleOrder.GenerateModuleDependencies: the order of the modules it gives access to, when a list has duplicates, and upper case of letters other than a to z.
- Changelog.GetChangelogVersion: the line patterns; lines are parsed records.
- SlotPipeline.Tester.Run: the progress display, the co-processor bootloader stage (which drops no slot), the MAC address in reports, and the loop that waits for print buttons.
- The placeholder replacement in translations, and the templates, option lists and reports of the build.
