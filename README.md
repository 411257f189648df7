# GD32 router power manager — a Dafny model

The firmware runs on a GD32 microcontroller that powers a router from a battery. It has three parts, modelled here:

- **Flash EEPROM emulation** (`flashee.dfy`, module `FlashEeprom`):
  - A 256-word record is staged in RAM: start flag, version, checksum, 252 storage words and end flag.
  - The record is saved round-robin over four flash pages. The next page is erased only when it is dirty. The record is programmed word by word, then the previous page is erased.
  - At boot the lowest page holding a valid record is loaded. A cold start fills the storage with `0xff`.
  - The flash region is a field holding four pages. The staging record is an `array<u32>`. Every erase command is logged.
- **The serial command shell** (`shell_text.dfy` and `shell.dfy`, modules `ShellText` and `CommandShell`):
  - `trimstr` and `splitArgs` work on character buffers.
  - The command search is case-insensitive, by prefix or by full name.
  - Command interpreters nest. Each has up to 16 commands and up to 8 sub-interpreters.
  - Autocompletion finishes a unique match, or a longest common prefix, and recurses into a sub-interpreter. Execution runs the one handler found.
  - The line shell keeps a 64-byte input buffer and reacts to `?`, tab, backspace/delete, return/newline and printable characters.
  - Interpreters and the shell are classes over their tables and buffer. What the recursive operations compute is stated by ghost functions over the tree of interpreters reachable from the root.
- **The power sequencer** (`power.dfy`, module `PowerManager`):
  - Eleven configuration words are kept in the EEPROM's storage and fall back to defaults.
  - The battery voltage comes from an ADC reading and a resistor divider, in 32-bit integer arithmetic.
  - A five-state machine (STANDBY, STARTING, RUNNING, SHUTTING_DOWN, RESTARTING) switches the router and DC-DC enables on one-second ticks. It applies under-voltage lockout, an external watchdog and a sleep request.
  - The state lives in a class whose methods are proved equal to pure functions (`Enter`, `Tick`). The lemmas about runs of ticks are stated over those functions.

`common.dfy` (module `Common`) holds the `u32` word type with explicit wrap-around and an `Option` type.

Hardware inputs become parameters:
- The ADC reading, the wake pin and the watchdog-reset button are a `Reading` per tick.
- Flash contents are a parameter of the constructor.

Hardware outputs are recorded in fields:
- enable pin levels;
- shutdown-notify pulses;
- router power cycles;
- the sleep request;
- handler calls.

## Model

| member | source | states |
|---|---|---|
| FlashEeprom.DecodeEncode | src/gd32_flashee.cpp:8-14 | reading a well-formed record back from its 256 words gives the record: the struct overlay loses nothing |
| FlashEeprom.EncodeDecode | src/gd32_flashee.cpp:8-14 | every page of 256 words is the layout of the record it reads as |
| FlashEeprom.Encode | src/gd32_flashee.cpp:8-14 | the 256 words a record occupies in address order: the flags, version and checksum, then the storage, then the end flag; `DecodeEncode` proves it inverts `Decode` |
| FlashEeprom.Decode | src/gd32_flashee.cpp:8-14 | the record a 256-word page reads as through the struct overlay, always with 252 storage words; `EncodeDecode` proves it inverts `Encode` |
| FlashEeprom.SumFromIsModularSum | src/gd32_flashee.cpp:20-28 | the wrapping checksum loop computes the true sum modulo 2^32 |
| FlashEeprom.ChecksumIsSum | src/gd32_flashee.cpp:20-28 | a record's checksum is its version plus all 252 storage words, modulo 2^32, flags excluded |
| FlashEeprom.SumFrom | src/gd32_flashee.cpp:22-27 | the accumulation loop of `_ee_checksum`: each word is added with 32-bit wrap-around; `SumFromIsModularSum` gives its closed form |
| FlashEeprom.Checksum | src/gd32_flashee.cpp:20-28 | `_ee_checksum`: the loop started at the version and run over the storage words, flags and stored checksum excluded; `ChecksumIsSum` gives its value |
| FlashEeprom.IsValid | src/gd32_flashee.cpp:36-37 | the load check: start flag, end flag, requested version and a stored checksum equal to the computed one, all four required |
| FlashEeprom.PageValid | src/gd32_flashee.cpp:35-38 | a page is accepted when the record it reads as passes the load check |
| FlashEeprom.ScanFrom | src/gd32_flashee.cpp:30-41 | the page found is valid and every page skipped before it is invalid, or no page is left |
| FlashEeprom.Scan | src/gd32_flashee.cpp:30-41 | the boot scan returns the lowest valid page, or 4 when none is valid |
| FlashEeprom.ScanIsFirstValid | src/gd32_flashee.cpp:30-41 | the scan result is determined: any index that is valid with all lower pages invalid is the result |
| FlashEeprom.ErasedPageInvalid | src/gd32_flashee.cpp:36-37 | an erased page never passes the flag check |
| FlashEeprom.NeedsErase | src/gd32_flashee.cpp:51-58 | the dirty-page test of the first write loop: some word of the target is not 0xFFFFFFFF |
| FlashEeprom.Commit | src/gd32_flashee.cpp:43-71 | after a commit the target page holds the record, the previous page is erased, and every other page is unchanged |
| FlashEeprom.CommitErasesTargetOnlyIfDirty | src/gd32_flashee.cpp:51-58 | a commit erases the target at most once, only if some word is not 0xFFFFFFFF, and then erases the previous page |
| FlashEeprom.CommitErases | src/gd32_flashee.cpp:51-64 | the page offsets one write passes to the erase command, in order: the target when it is dirty, then the previous page; `CommitErasesTargetOnlyIfDirty` states its shape |
| FlashEeprom.SaveThenScan | src/gd32_flashee.cpp:43-71 | after a save, the next boot scan selects the new page and reads back exactly the saved storage, provided no lower page was left valid |
| FlashEeprom.CrashWindowPicksLowerIndex | src/gd32_flashee.cpp:59-64 | interrupted between programming the target and erasing the previous page, the scan picks the lower of the two indices |
| FlashEeprom.RotationOrder | src/gd32_flashee.cpp:47 | the i-th of m saves from page s writes page (s + i + 1) mod 4 |
| FlashEeprom.ColdRecordValid | src/gd32_flashee.cpp:82-92 | the cold-start record is valid for its version; its checksum is version + 252 * 0xff modulo 2^32 |
| FlashEeprom.ColdRecord | src/gd32_flashee.cpp:82-92 | the staging record after a cold start: both flags, the requested version, every storage word 0xff and the checksum over them; `ColdRecordValid` proves the next scan accepts it |
| FlashEeprom.BootStorage | src/gd32_flashee.cpp:79-95 | the storage `ee_init` stages: that of the page the scan selects, or the cold-start fill of 252 words when no page is valid |
| FlashEeprom.FlashEE.constructor | src/gd32_flashee.cpp:16-17 | the static state: staging record all zero, active page 0 |
| FlashEeprom.FlashEE.ErasePage | src/gd32_flashee.cpp:55 | an erase command resets one page to 0xFFFFFFFF and is logged |
| FlashEeprom.FlashEE.ProgramWord | src/gd32_flashee.cpp:62 | programming writes one word of an erased word |
| FlashEeprom.FlashEE.ReadPage | src/gd32_flashee.cpp:35 | the staging record becomes a copy of the page |
| FlashEeprom.FlashEE.LoadFromFlash | src/gd32_flashee.cpp:30-41 | the active page becomes the scan result; found iff some page is valid; the staging record holds that page, or the last page read |
| FlashEeprom.FlashEE.UpdateChecksum | src/gd32_flashee.cpp:73-77 | only the checksum word changes, and afterwards it matches the record |
| FlashEeprom.FlashEE.EraseIfDirty | src/gd32_flashee.cpp:51-58 | the target ends erased; the erase command is issued only when the target was dirty |
| FlashEeprom.FlashEE.ProgramPage | src/gd32_flashee.cpp:59-63 | an erased target ends holding the staging record word for word |
| FlashEeprom.FlashEE.WriteToFlash | src/gd32_flashee.cpp:43-71 | the region becomes `Commit` of the old region, the erase log grows by `CommitErases`, the active page advances round-robin |
| FlashEeprom.FlashEE.Init | src/gd32_flashee.cpp:79-95 | returns -1 iff no page is valid, and then stages the cold-start record; otherwise returns the scanned page and stages its contents |
| FlashEeprom.FlashEE.Save | src/gd32_flashee.cpp:97-103 | the checksum is refreshed, the record committed, and the new active page returned |
| FlashEeprom.FlashEE.InitSetSave | src/gd32_flashee.cpp:79-117 | `ee_init`, `ee_set`, `ee_save` in a row: the page written is valid, the next boot scan selects it, and it reads back the booted storage with the one word changed (or unchanged when the offset was refused) |
| FlashEeprom.FlashEE.Get | src/gd32_flashee.cpp:105-110 | a word is returned iff the offset is below 252, and it is that storage word |
| FlashEeprom.FlashEE.Set | src/gd32_flashee.cpp:112-117 | succeeds iff the offset is below 252; the word is replaced and every other offset reads as before |
| ShellText.UpToNul | src/shell.cpp:398 | reading a buffer back as a C string gives the prefix before the first NUL |
| ShellText.UpToNulNoNul | src/shell.cpp:398 | a string without NUL reads back whole |
| ShellText.UpToNulAt | src/shell.cpp:398 | the C string ends exactly at the first NUL |
| ShellText.LeadingSpaces | src/shell.cpp:12 | the skip loop stops at the first non-space |
| ShellText.SkipSpaces | src/shell.cpp:46 | the text after its leading spaces, where the skip loops stop |
| ShellText.Collapse | src/shell.cpp:17-31 | the main loop of trimstr emits at most one character per input character, plus a pending space |
| ShellText.CollapseShape | src/shell.cpp:17-31 | the loop never emits a trailing or doubled space, nor a leading one when it starts outside a run of spaces |
| ShellText.CollapseStep | src/shell.cpp:19-30 | one iteration of the loop: a space sets the pending flag; any other character is emitted after a pending space |
| ShellText.CollapseChars | src/shell.cpp:17-31 | every emitted character is a space or comes from the input |
| ShellText.TrimNormalised | src/shell.cpp:7-34 | trimstr's result has no leading, trailing or doubled space and is no longer than the input |
| ShellText.TrimNoNul | src/shell.cpp:7-34 | trimstr introduces no NUL |
| ShellText.Trim | src/shell.cpp:7-34 | what `trimstr` leaves: leading spaces skipped, then the main loop, no longer than the input; `TrimNormalised`, `TrimKeepsNonSpaces` and `TrimIdempotent` state its properties and `TrimStr` is proved to compute it in place |
| ShellText.NonSpacesAppend | src/shell.cpp:7-34 | the non-space characters of a concatenation are those of each part |
| ShellText.NonSpacesCollapse | src/shell.cpp:17-31 | the main loop keeps every non-space character, in order |
| ShellText.NonSpacesSkip | src/shell.cpp:12 | skipping leading spaces keeps every non-space character |
| ShellText.TrimKeepsNonSpaces | src/shell.cpp:7-34 | trimstr keeps every non-space character in the original order |
| ShellText.CollapseFixed | src/shell.cpp:17-31 | a string without trailing or doubled spaces passes the loop unchanged |
| ShellText.TrimIdempotent | src/shell.cpp:7-34 | trimming twice is trimming once |
| ShellText.Squeeze | src/shell.cpp:14-31 | in place, the buffer's front becomes the collapsed text and the rest is untouched |
| ShellText.SqueezeStep | src/shell.cpp:19-30 | one iteration in place preserves the loop's invariant: written prefix plus collapse of the unread rest is constant |
| ShellText.TrimStr | src/shell.cpp:7-34 | in place, the buffer becomes the trimmed C string |
| ShellText.IndexOfSpace | src/shell.cpp:48 | strchr finds the first space, or the end |
| ShellText.Split | src/shell.cpp:36-68 | without a space after the command word there are no arguments; the parts fit in the input |
| ShellText.SplitParts | src/shell.cpp:36-68 | the command word is the maximal run of non-spaces after the leading spaces; the flag is set iff a space follows it; the arguments are what follows that space without leading spaces |
| ShellText.SplitArgsNormalised | src/shell.cpp:36-68 | on a trimmed line the arguments come out trimmed |
| ShellText.NormalisedAfterSpace | src/shell.cpp:65-67 | what follows a space of a trimmed string is trimmed and starts with a non-space |
| ShellText.SplitArgs | src/shell.cpp:36-68 | the scanning loops compute `Split` |
| ShellText.SplitAt | src/shell.cpp:45-67 | the three indices the loops stop at determine the command word, arguments and flag |
| ShellText.FindSpace | src/shell.cpp:48 | the strchr scan from an index finds the first space after it |
| ShellText.SkipSpacesFrom | src/shell.cpp:46 | the skip loop from an index ends at the first non-space after it |
| ShellText.IndexOfSpaceAt | src/shell.cpp:48 | the first-space index is determined by its defining property |
| ShellText.FullMatchIsPrefixMatch | src/shell.cpp:126-136 | a name found by full (strcasecmp) match is also found by prefix (strncasecmp) match |
| ShellText.ToLower | src/shell.cpp:129 | the ASCII case folding of `strcasecmp`: upper-case letters map to lower case, every other character to itself |
| ShellText.CaseEq | src/shell.cpp:129 | `strcasecmp(a, b) == 0`: equal lengths and equal characters after folding |
| ShellText.NameMatches | src/shell.cpp:126-136 | the search test: names shorter than the query are skipped, then `strcasecmp` for a full match or `strncasecmp` over the query length for a prefix match |
| ShellText.LcpUnique | src/shell.cpp:249-262 | the longest common prefix length is unique |
| ShellText.LcpFrom | src/shell.cpp:250-262 | extending a shared prefix character by character reaches the longest common prefix |
| ShellText.PrefixExtends | src/shell.cpp:255-259 | a character shared at position i extends the common prefix to i + 1 |
| ShellText.Lcp | src/shell.cpp:249-262 | the length computed is the longest common prefix of the names |
| ShellText.CommonPrefixLength | src/shell.cpp:235-262 | the minimum-length and character loops compute exactly the longest common prefix |
| CommandShell.Matches | src/shell.cpp:120-141 | the matching slot indices, each a filled slot within the table |
| CommandShell.MatchesExactly | src/shell.cpp:120-141 | a slot is among the matches iff it is filled, its name is at least as long as the query, and it matches |
| CommandShell.MatchesInOrder | src/shell.cpp:123-138 | matches are listed in strictly increasing slot order |
| CommandShell.MatchesPrefix | src/shell.cpp:123-138 | the matches among the first i slots are a prefix of the matches among the first j ≥ i |
| CommandShell.CommandNames | src/shell.cpp:125 | a command slot offers its name iff it has a handler |
| CommandShell.InterpreterNames | src/shell.cpp:148 | an interpreter slot offers its name iff it is not null |
| CommandShell.MatchedNames | src/shell.cpp:234-248 | the names collected for the prefix step, commands first, each fitting a 64-byte buffer |
| CommandShell.Fit | src/shell.cpp:211-225 | snprintf into a 64-byte buffer keeps at most 63 characters, a prefix of the text |
| CommandShell.ExecuteSpec | src/shell.cpp:289-332 | the result code is one of 0, -1, -2, -3, and a handler is called only with code 0 |
| CommandShell.CompleteCommon | src/shell.cpp:264-285 | when the common prefix is longer than the typed word the line becomes that prefix of the first match (code 0), otherwise the line stays (code -2) |
| CommandShell.AutocompleteSpec | src/shell.cpp:166-287 | the code is 0, -1 or -2; a nonzero code leaves the line unchanged; the line stays within 64 bytes |
| CommandShell.OneMatchSpec | src/shell.cpp:193-229 | the one-match case keeps the same code and length guarantees, recursing into a sub-interpreter after a space |
| CommandShell.ShortNamesOf | src/shell.cpp:87-98 | every name registered in the reachable tree fits a command buffer |
| CommandShell.ExecuteIgnoresSpacing | src/shell.cpp:298 | executing a line and executing it trimmed have the same outcome |
| CommandShell.ExecuteArgsNormalised | src/shell.cpp:298-327 | every handler, however deep, receives trimmed arguments |
| CommandShell.Step | src/shell.cpp:423-452 | a typed character keeps the line under 64 characters and free of NUL; only return or newline call a handler |
| CommandShell.TypingFillsLine | src/shell.cpp:442-450 | editing with printable characters (the `EditAll` fold of the printable branch) appends them in order until the line holds 63, then drops the rest |
| CommandShell.Typed | src/shell.cpp:423-452 | the line and the handler calls after a run of `inputChar`, one `Step` per key; the line stays below 64 characters |
| CommandShell.PlainKeyEdits | src/shell.cpp:423-452 | a key other than `?`, tab, return and newline falls through the switch to the editing branch and calls no handler |
| CommandShell.TypingIsEditing | src/shell.cpp:423-452 | typing keys other than `?`, tab, return and newline is exactly the `EditAll` fold and calls no handler |
| CommandShell.TypingAppends | src/shell.cpp:423-452 | at the shell, typing printable characters other than `?` appends them in order until the line holds 63, drops the rest, and calls no handler; `?` is routed to help instead |
| CommandShell.BackspaceUndoesType | src/shell.cpp:355-365 | backspace or delete removes an accepted printable character |
| CommandShell.EnterRunsAndClears | src/shell.cpp:367-393 | return and newline run the line and empty it; no other character calls a handler |
| CommandShell.IsPrintable | src/shell.cpp:443 | the characters the line accepts: printable ASCII, space to tilde |
| CommandShell.Edit | src/shell.cpp:434-450 | the line after backspace or delete (last character removed, if any), after a printable character (appended while the line and its NUL fit in 64 bytes), and otherwise unchanged; `BackspaceUndoesType` relates the two edits |
| CommandShell.EditAll | src/shell.cpp:423-452 | the line after editing with a sequence of characters; `TypingIsEditing` proves it is what `inputChar` gives on keys other than `?`, tab, return and newline, and `TypingFillsLine` gives its closed form |
| CommandShell.CommandInterpreter.constructor | src/shell.cpp:72-85 | all slots start empty |
| CommandShell.CommandInterpreter.RegisterCommand | src/shell.cpp:87-93 | the next free command slot is filled and the count grows by one |
| CommandShell.CommandInterpreter.RegisterCommandInterpreter | src/shell.cpp:95-98 | the next free interpreter slot is filled and the count grows by one |
| CommandShell.CommandInterpreter.GetCommand | src/shell.cpp:100-108 | the first registered command with exactly that name, or none when no such command exists |
| CommandShell.CommandInterpreter.GetCommandInterpreter | src/shell.cpp:110-118 | the first sub-interpreter with exactly that name, or none when no such interpreter exists |
| CommandShell.CommandInterpreter.SearchCommand | src/shell.cpp:120-141 | the result holds the first min(matches, capacity) matching commands in order; the rest is cleared; the count is returned |
| CommandShell.CommandInterpreter.SearchCommandInterpreter | src/shell.cpp:143-164 | the same for sub-interpreters |
| CommandShell.CommandInterpreter.Lookup | src/shell.cpp:189-190 | the two searches executeCommand and autocompleteHandle start with find every match |
| CommandShell.CommandInterpreter.MatchedNamesOf | src/shell.cpp:234-248 | the name-collecting loops gather the matched names, commands first |
| CommandShell.CommandInterpreter.ExecuteCommand | src/shell.cpp:289-332 | the outcome is `ExecuteSpec` of the line |
| CommandShell.CommandInterpreter.AutocompleteHandle | src/shell.cpp:166-287 | the code and new line are `AutocompleteSpec` of the line |
| CommandShell.CommandInterpreter.CompleteOne | src/shell.cpp:193-229 | the one-match branch computes `OneMatchSpec` |
| CommandShell.CommandInterpreter.CompleteAmong | src/shell.cpp:231-285 | the multiple-match branch computes `CompleteCommon` of the matched names |
| CommandShell.Found | src/shell.cpp:130 | the filled result entries, in order |
| CommandShell.SearchSlots | src/shell.cpp:120-141 | the search loop collects the first min(matches, capacity) matches and clears the rest |
| CommandShell.SearchSlot | src/shell.cpp:125-137 | one iteration records a match and stops once the result is full |
| CommandShell.FirstMatches | src/shell.cpp:137 | stopping early at a full result still yields the first matches of the whole table |
| CommandShell.ClearFrom | src/shell.cpp:139 | every result entry from the count on is cleared |
| CommandShell.Shell.constructor | src/shell.cpp:337-340 | an empty line over a root interpreter named "root" with empty tables |
| CommandShell.Shell.PrintPrompt | src/shell.cpp:347-353 | the prompt is unlocked |
| CommandShell.Shell.LockPrompt | src/shell.cpp:454-463 | the prompt is locked |
| CommandShell.Shell.PromptFlush | src/shell.cpp:465-468 | a locked prompt is redrawn and unlocked |
| CommandShell.Shell.Print | src/shell.cpp:488-492 | printing locks the prompt |
| CommandShell.Shell.RegisterCommand | src/shell.cpp:413-416 | registration on the root interpreter |
| CommandShell.Shell.RegisterCommandInterpreter | src/shell.cpp:418-421 | registration on the root interpreter; the shell keeps the reachable tree closed |
| CommandShell.Shell.Backspace | src/shell.cpp:355-365 | the last character is removed when there is one |
| CommandShell.Shell.Execute | src/shell.cpp:367-393 | the handler `ExecuteSpec` names is called and the line is cleared |
| CommandShell.Shell.Autocomplete | src/shell.cpp:395-411 | the line becomes the C string of `AutocompleteSpec`'s line |
| CommandShell.Shell.LoadLine | src/shell.cpp:398-399 | the buffer holds the completed line and its length is taken with strlen |
| CommandShell.Shell.InputChar | src/shell.cpp:423-452 | the line and the handler calls change exactly as `Step` says |
| CommandShell.Shell.EditLine | src/shell.cpp:434-450 | backspace, delete and printable characters change the line as `Edit` says |
| CommandShell.Shell.Type | src/shell.cpp:445-448 | a printable character is appended only while the line has room for it and the NUL |
| CommandShell.WriteString | src/shell.cpp:211 | snprintf/strncpy leave the text followed by a NUL |
| CommandShell.Strlen | src/shell.cpp:398 | strlen returns the length of the C string read back |
| PowerManager.GetConfigValue | src/main.cpp:85-90 | every configuration read returns the stored word, since the 11 ids are below the 252 storage words |
| PowerManager.ConfigOf | src/main.cpp:38-53 | the configuration vector is what getConfigValue reads for each id |
| PowerManager.SetConfigDefaults | src/main.cpp:97-103 | slots 0..10 become the defaults; flags, version, checksum and the other storage words are unchanged |
| PowerManager.DefaultsStep | src/main.cpp:99-102 | one iteration extends the run of defaults by one word |
| PowerManager.DefaultsLaidOut | src/main.cpp:97-103 | with all defaults written the configuration reads as the defaults |
| PowerManager.VoltageNoWrap | src/main.cpp:195-205 | when no product reaches 2^32 the uint32 formula is the integer formula with truncating division |
| PowerManager.DefaultVoltage | src/main.cpp:55-67 | under the default divider a 12-bit reading never wraps; the result is 11 times the pin millivolts, at most 36630 |
| PowerManager.DefaultVoltageMonotone | src/main.cpp:195-205 | under the default divider a larger reading never gives a lower voltage |
| PowerManager.Voltage | src/main.cpp:202 | `adc_vref*buffer/ADC_MAX*(pullup+pulldown)/pulldown` in uint32_t, left to right, each product and sum wrapping and each quotient truncated; `VoltageNoWrap` and `DefaultVoltage` state its value |
| PowerManager.ReadVoltage | src/main.cpp:195-205 | the divider formula over the pull-up, pull-down and reference words of a configuration vector |
| PowerManager.GetVoltage | src/main.cpp:195-205 | `getVoltage` reading its three words from the store computes the same voltage as the formula over `ConfigOf` of the store, the one the state machine compares |
| PowerManager.SystemStateString | src/main.cpp:128-138 | every state has a name and the UNKNOWN fallback is never returned |
| PowerManager.SystemStateStringInjective | src/main.cpp:128-138 | distinct states print distinct names |
| PowerManager.Enter | src/main.cpp:290-326 | entering a state sets it and zeroes the time counter; RUNNING also zeroes the watchdog and UVLO counters, STANDBY the UVLO counter; STARTING raises both enables; SHUTTING_DOWN sends one notice; RESTARTING power-cycles the router |
| PowerManager.Tick | src/main.cpp:328-388 | one tick only makes the transitions of the state diagram; leaving for STANDBY drops both enables; STARTING raises both; a notice is sent exactly on entering SHUTTING_DOWN, and from RUNNING only on a low battery with the wake pin inactive; sleep is requested only in STANDBY |
| PowerManager.StartingTick | src/main.cpp:332-336 | STARTING/RESTARTING either stay or go to RUNNING, enables untouched |
| PowerManager.RunningTick | src/main.cpp:337-361 | RUNNING goes to SHUTTING_DOWN only on a low battery without wake, otherwise may go to RESTARTING; enables stay on |
| PowerManager.ShuttingDownTick | src/main.cpp:362-370 | SHUTTING_DOWN either stays or reaches STANDBY with both enables low |
| PowerManager.StandbyTick | src/main.cpp:371-386 | STANDBY either stays, with enables untouched, or reaches STARTING with both on |
| PowerManager.TickKeepsPowered | src/main.cpp:290-388 | the router and DC-DC enables are high exactly outside STANDBY, and every tick keeps it so |
| PowerManager.WatchdogTick | src/main.cpp:351-361 | the watchdog half of a RUNNING tick: the count is incremented, or zeroed while the button reads LOW, and passing TIMEOUT_WDT enters RESTARTING |
| PowerManager.Run | src/main.cpp:271-280 | the machine after a sequence of one-second ticks, one `SystemStateLoop` per reading; the subject of the lemmas below |
| PowerManager.StartupReachesRunning | src/main.cpp:332-336 | STARTING and RESTARTING last max(1, TIME_STARTING - count) ticks (increment, then a non-strict comparison), whatever is sampled, then RUNNING starts with zero counters; a TIME_STARTING of 0 leaves after one tick |
| PowerManager.ShutdownReachesStandby | src/main.cpp:362-370 | SHUTTING_DOWN lasts TIME_SHUTDOWN + 1 ticks and ends in STANDBY with both enables low |
| PowerManager.UnderVoltageShutsDown | src/main.cpp:339-350 | with a low battery (below VOLT_UVLO), the wake pin inactive and the watchdog-reset button held LOW on every sample, RUNNING shuts down on the sample that makes the count exceed TIMEOUT_UVLO, not before; with the button held the watchdog cannot interfere |
| PowerManager.WatchdogRestarts | src/main.cpp:351-361 | whenever the under-voltage check does not count (wake pin held or battery at or above VOLT_UVLO) and the reset button is released on every sample, RUNNING power-cycles the router on the tick that makes the count exceed TIMEOUT_WDT, not before |
| PowerManager.WakeUpStarts | src/main.cpp:374-379 | with the wake pin held or the battery at or above VOLT_WAKEUP on every sample, STANDBY switches both supplies on on the tick that makes the count exceed TIME_WAKEUP, not before |
| PowerManager.IdleRequestsSleep | src/main.cpp:380-385 | without wake or charge, STANDBY counts up and requests sleep exactly once the count exceeds TIME_ENTER_SLEEP |
| PowerManager.PowerSequencer.constructor | src/main.cpp:140-143 | the globals' initial values with both enables low: STANDBY with zero counters |
| PowerManager.PowerSequencer.SetSystemState | src/main.cpp:290-326 | the globals change as `Enter` says |
| PowerManager.PowerSequencer.SystemStateLoop | src/main.cpp:328-388 | the globals change as `Tick` says, with thresholds read from the configuration store |
| PowerManager.PowerSequencer.StartingStep | src/main.cpp:332-336 | the STARTING/RESTARTING case computes `StartingTick` |
| PowerManager.PowerSequencer.RunningStep | src/main.cpp:337-361 | the RUNNING case computes `RunningTick` |
| PowerManager.PowerSequencer.ShuttingDownStep | src/main.cpp:362-370 | the SHUTTING_DOWN case computes `ShuttingDownTick` |
| PowerManager.PowerSequencer.StandbyStep | src/main.cpp:371-386 | the STANDBY case computes `StandbyTick` |
| PowerManager.BootConfigAsWritten | src/main.cpp:252-257 | the configuration `setup` leaves as written: the defaults when the scan selected page 0, otherwise the booted storage (the cold-start fill when no page was valid) |
| PowerManager.BootConfig | src/main.cpp:252-257 | the configuration `setup` is meant to leave: the defaults exactly when no page was valid, otherwise the stored words |
| PowerManager.LoadConfigAsWritten | src/main.cpp:252-257 | the defaults are applied iff the scan selected page 0; the configuration is `BootConfigAsWritten` |
| PowerManager.LoadConfig | src/main.cpp:252-257 | the defaults are applied iff no page is valid; the configuration is `BootConfig` |
| PowerManager.BlankRegionScan | src/gd32_flashee.cpp:30-41 | a blank region has no valid page |
| PowerManager.ColdStartKeepsFill | src/main.cpp:252 | as written, a blank device runs with every configuration word 0xff |
| PowerManager.PageZeroConfigDiscarded | src/main.cpp:252 | as written, a pull-down of 30 saved on page 0 is replaced by the default 20 at boot |
| PowerManager.ColdStartUsesDefaults | src/main.cpp:252-257 | corrected, a blank device boots with the defaults |
| PowerManager.SavedConfigSurvivesReboot | src/main.cpp:252-257 | corrected, what a save commits is the configuration the next boot runs with, page 0 included |
| PowerManager.PageZeroConfigKept | src/main.cpp:252-257 | corrected, the pull-down saved on page 0 survives the boot |

## Left out

- Flash driver calls:
  - `fmc_unlock`, `fmc_lock`, `fmc_page_erase` and `fmc_word_program` become methods on the modelled page array.
  - The PRIMASK save and interrupt masking around a write are not modelled. A write is one atomic method.
  - `memcpy_P` and the absolute flash addresses are not modelled either.
- ISRs, `millis()` and button hold timing are concurrency with the main loop:
  - `wdt_reset_isr`, `reset_button_pressed` and `reset_button_released`.
  - The config-reset flag they set is not modelled.
  - A button press is only sampled, as `Reading.buttonLow`.
- Other hardware outside the model:
  - the independent watchdog setup and feed;
  - the `enterSleepMode` check in `setup`;
  - `NVIC_SystemReset`;
  - LED toggling;
  - pin modes;
  - the one-second timing of `loop` and the `delay` calls.
  `prepareSleepMode` is recorded as `sleepRequested`.
- Serial output:
  - `printConfig`, the help listings, the voltage and counter prints, and the "Command not found" family of messages.
  - The `?` echo and the displayOnly recursion, which only prints. Its `parentcmd`/`fullcmd` strings are therefore not modelled.
  - Printing is reduced to the prompt-lock flag.
- Command handler bodies are function pointers outside the model. A call is recorded as an `Invocation` of the handler with its arguments.
- `setConfigValue` and `saveConfig` are one-line wrappers of `ee_set` and `ee_save`. Their effect is modelled by `FlashEE.Set` and `FlashEE.Save`.
- Null guards are not modelled. The null-pointer guards of `trimstr`/`splitArgs` and the optional `cmd_has_tail_space` pointer are never exercised by the callers.
- `executeCommand` trims the caller's buffer in place, so the shell's buffer is trimmed before it is cleared. The model trims a copy, because the buffer is cleared right afterwards.
- CommandShell.CommandInterpreter.RegisterCommand, CommandShell.CommandInterpreter.RegisterCommandInterpreter and CommandShell.Shell.RegisterCommandInterpreter: these require a free slot and a name shorter than 64 characters. The source does not check capacity and writes past its fixed tables. Command names must also hold no NUL, as every name the firmware registers is a C string literal.
- CommandShell.CommandInterpreter.constructor and CommandShell.Shell.RegisterCommand: these carry the same name requirements, shorter than 64 characters and free of NUL. The Shell one also requires a free slot.
- CommandShell.CommandInterpreter.SearchCommand and CommandShell.CommandInterpreter.SearchCommandInterpreter: these require a result capacity of at least 1. The source's callers always pass 16 and 8.
- CommandShell.Shell.Type: requires a character other than NUL; it is only called with printable characters.
- PowerManager.GetConfigValue: the fallback to `config_defaults` is not written out. `ee_get` never refuses an id below 11, so the fallback is unreachable.
- PowerManager.Voltage: requires a nonzero pull-down, because the source divides by it unchecked. `Tick` and `SystemStateLoop` ask for this only in the states and cases that read the voltage.
- PowerManager.StartupReachesRunning: requires the time counter to be below 0xFFFFFFFF, so the increment does not wrap. The counter is zeroed on entering STARTING or RESTARTING and leaves at TIME_STARTING at the latest, so it never gets there.
- PowerManager.SystemStateString: an out-of-range enum value, which would print "UNKNOWN", cannot be represented by the datatype.
- Buffer contents past the terminating NUL are not tracked after a completion. The shell reads its line back with strlen.
- Search results are slot indices rather than pointers into the tables.

## Findings

| source | as written | input that shows it | evidently intended | confidence | as-written member | corrected member |
|---|---|---|---|---|---|---|
| src/main.cpp:252 | `if(!ee_init(EE_VERSION)) setConfigDefaults();` applies the defaults when `ee_init` returns 0. But `ee_init` returns -1 on a cold start and the loaded page index otherwise (src/gd32_flashee.cpp:79-95). | Blank flash (`BlankRegion`): every configuration word stays 0xff, so the pull-down reads 255 instead of 20. A record saved on page 0 (`SavedOnPageZero`, pull-down 30): it is replaced by the defaults (pull-down 20) at every boot. | apply the defaults exactly when `ee_init` reports a cold start (`ee_init(EE_VERSION) < 0`) | high; not executed | PowerManager.LoadConfigAsWritten, PowerManager.ColdStartKeepsFill, PowerManager.PageZeroConfigDiscarded | PowerManager.LoadConfig, PowerManager.ColdStartUsesDefaults, PowerManager.SavedConfigSurvivesReboot, PowerManager.PageZeroConfigKept |
