# PX4 flight firmware: waypoint manager, shell, uploader, GPS, dd and motor output

Six parts of a PX4 autopilot firmware, modelled in Dafny and proved. Where the program updates things in
place the model is a class or a method over arrays, each proved to take the step of a function on values;
what the program promises is then proved about those functions, over every input and every run.

- `WaypointModel`, `WaypointRuns`, `WaypointTransfers`, `WaypointOverrun`, `WaypointCycle`, `WaypointFlight`,
  `WaypointLaws`, `WaypointManager`: the MAVLink mission protocol. A run is any interleaving of messages and event-loop passes, with any clock and any
  position samples. Proved: the protocol invariant; uploads install exactly what was sent under loss,
  repetition and reordering; downloads hand out exactly what is stored; the two compose to the identity;
  the live list switches atomically; exactly when arrivals are announced and advances made, the mission cycle
  and the `current` flags; and what each message does and which are refused, in the protocol's own numbers.
- `NshTokens`, `NshBuffer`, `NshParser`, `NshScript`, `NshDepth`, `NshGrammar`, `NshRunner`, `NshLaws`, `NshShell`:
  the shell. The in-place tokeniser reads back every printed list of words; the if/then/else stack machine, fed one line at a time, does what the
  structured program means and accepts exactly the beginnings of well-nested programs; and a script file runs up to its first failing command.
- `Checksums32`, `Uploader`: the firmware uploader. The 256-entry table is the bitwise CRC of section 8 of
  RFC 1952 (initial value 0, no final complement); every burst of up to four bytes changes the CRC; an
  upload into flash that keeps what is written verifies, and one that does not is accepted exactly if what
  is in the flash passes the check.
- `Fletcher`, `Framing`, `Ubx`, `Mtk`, `GpsMessages`: the GPS frame decoders and their checksum, with every
  message by its class, id and length, and including exactly which alterations
  of two bytes the checksum misses.
- `Dd`: the copy command over devices that read and write short or fail: it fails exactly when a device does,
  and otherwise puts out exactly the chosen sectors.
- `Ardrone`: the motor mixer over the reals, how the motors answer roll, pitch and yaw, and the nine-bit packing
  of its output.

`dafny verify dfyconfig.toml` checks everything.

## Where the code does not do what one would expect

- An idle waypoint manager acknowledges any mission item addressed to it and stores none, so an ACK alone
  does not confirm an upload (`ItemAckedIff`, `IdleAckInstallsNothing`).
- A download of one item can be closed by an ACK before that item was asked for
  (`AckMayCloseUnservedDownload`).
- Asked for an empty list, the manager sends the count to the partner it had before, not to whoever asked
  (`CountReachesAskerIff`).
- The uploader's CRC covers the flash exactly when the rest of the flash is whole words
  (`PadWordsExactIff`).
- Announced counts are not checked: with more than 15 items, and only then, an item is written behind the
  receive buffer (`SixteenthItemOverruns`, `AlwaysRunsIff`).
- Behind a quote that ends a line the search for the word's end leaves the line and goes on in what lies
  behind it (`SearchStaysInLineIff`, `LoneQuoteLeavesLine`, `NshBuffer.Jump`).
- An `if` nested too deep drops all levels and enables commands again even inside a branch that was being
  skipped (`TooDeepIfDropsAllLevels`, `IfLine`); some line is refused exactly if the program is too deep
  (`RefusedIffTooDeep`).
- A script that stops at a failing command inside a branch leaves the conditionals around it open, so the
  shell's next lines are taken as part of them (`PlayRunsProgram`, `LevelsLeftOpenIff`).
- A script file without any line counts as failed (`Shell.Script`).
- A stray first sync byte in front of a u-blox frame makes the decoder miss the start of that frame
  (`StraySyncLosesFrameStart`).
- A pair of quotes with nothing between does not read as an empty word (`EmptyQuotesReadOn`).
- A little more pitch can lower a front motor, where yaw loses half its weight (`PitchCanLowerFront`).
- Above full thrust the mixer's band is negative, all motors get one value, and from thrust 269/245 on the
  second failsafe's 512 is sent as 0 (`AboveFullThrust`, `LosslessIff`).

## Model

| member | source | states |
|---|---|---|
| WaypointRuns.StepKeepsInv | apps/mavlink/waypoints.c:480-1140 | every message and every event-loop pass keeps: at most 15 items, item i numbered i, active id valid or 65535, and per phase the transfer index, count and received prefix in order |
| WaypointRuns.RunKeepsInv | apps/mavlink/waypoints.c:70-91 | the invariant holds in every state of every run from initialisation |
| WaypointRuns.ItemKeepsInv | apps/mavlink/waypoints.c:985-1107 | taking, refusing or committing a mission item keeps the invariant |
| WaypointRuns.FittingCountsAlwaysRun | apps/mavlink/waypoints.c:888-908 | any sequence of events whose announced counts are at most 15 can run: no write leaves the receive buffer |
| WaypointOverrun.SixteenthItemOverruns | apps/mavlink/waypoints.c:1000-1012 | after any announcement of more than 15 items and items 0 to 14, item 15 is taken and lands behind the receive buffer |
| WaypointOverrun.AlwaysRunsIff | apps/mavlink/waypoints.c:888-908 | every sequence of events announcing at most n items can run without leaving a buffer if and only if n is at most 15 |
| WaypointRuns.OnlyCommitOrClearChangesMission | apps/mavlink/waypoints.c:1021-1060 | the stored mission changes only at the commit of an upload or at CLEAR_ALL in Idle |
| WaypointRuns.QuietIntervalKeepsMission | apps/mavlink/waypoints.c:450-467 | over any stretch of a run without commit or clear, whatever is abandoned, refused or timed out, size and all mission data stay |
| WaypointRuns.TickTimesOut | apps/mavlink/waypoints.c:450-467 | an event-loop pass returns any phase to Idle exactly when more than 5 s passed since the last action |
| WaypointRuns.SilenceEndsTransfers | apps/mavlink/waypoints.c:447-467 | in every run, once no message has come for longer than the timeout, the next event-loop pass leaves the manager Idle |
| WaypointTransfers.UploadInstallsList | apps/mavlink/waypoints.c:862-908 | if every item taken since the announcement of n came from a list of n items, the commit installs exactly that list up to `current`, and acknowledges it |
| WaypointTransfers.InOrderUploadInstalls | apps/mavlink/waypoints.c:1000-1063 | an upload without losses is taken item by item and ends installed and Idle |
| WaypointTransfers.ItemAckedIff | apps/mavlink/waypoints.c:1066-1072 | an item is answered by an ACK exactly when it commits or the manager is Idle; without a commit the list is untouched |
| WaypointTransfers.IdleAckInstallsNothing | apps/mavlink/waypoints.c:1066-1072 | a freshly started manager acknowledges an item and stores nothing |
| WaypointTransfers.UploadAsksForNext | apps/mavlink/waypoints.c:888-908 | an announcement, and any item that leaves the upload unfinished, is answered by a request for exactly the item now awaited |
| WaypointTransfers.DownloadIsAnnounced | apps/mavlink/waypoints.c:697-718 | a download starts by announcing the list's length to whoever asked, who becomes the partner |
| WaypointTransfers.CountReachesAskerIff | apps/mavlink/waypoints.c:176-182 | the answer to a list request reaches whoever asked exactly if the list is not empty or the asker was the partner already |
| WaypointTransfers.DownloadWalksUp | apps/mavlink/waypoints.c:728-771 | part way through a download the items sent start at 0, repeat or go up by one, go to the partner fixed at its start, and carry the stored mission data |
| WaypointTransfers.ClosedDownloadSentAll | apps/mavlink/waypoints.c:599-614 | a download closed by the partner's ACK has sent the whole list in order to that partner |
| WaypointTransfers.InOrderDownloadCompletes | apps/mavlink/waypoints.c:728-771 | a download without losses is served item by item and closed by its ACK, and the station has the list |
| WaypointTransfers.AckMayCloseUnservedDownload | apps/mavlink/waypoints.c:602-613 | in SENDLIST, before any item was served, the partner's ACK closes the download exactly when the list has one item |
| WaypointTransfers.UploadThenDownload | apps/mavlink/waypoints.c:193-210 | upload, anything that does not switch the list, then a closed download: the station rebuilds exactly the list it sent, up to `current` and addressee |
| WaypointFlight.ReachedWithinSetpoints | apps/mavlink/waypoints.c:399-407 | over every run "reached" messages never outnumber setpoints, and no activation is announced twice |
| WaypointFlight.AdvanceIsJustified | apps/mavlink/waypoints.c:397-436 | every setpoint sent of its own accord follows exactly one announcement for its activation, a sample in orbit since, and param2*1000 ticks since the announcement |
| WaypointFlight.ArrivalAnnounced | apps/mavlink/waypoints.c:353-407 | one sample within 0..param2 of the active waypoint, measured as its frame says, is announced by the very step that sees it |
| WaypointFlight.ActiveAsObserved | apps/mavlink/waypoints.c:382-383 | over every run the active waypoint is the one last aimed at and broadcast, and it counts as reached exactly if a sample inside its radius came since |
| WaypointFlight.AdvancesAtIff | apps/mavlink/waypoints.c:397-436 | over every run an arrival is announced exactly if such a sample came and it was not announced before, and a setpoint is sent unasked exactly if moreover autocontinue is set and param2*1000 ticks have passed since the announcement |
| WaypointFlight.StepKeepsNotes | apps/mavlink/waypoints.c:637-662 | what an outside observer noted matches the manager's arrival flag and time stamp after every step |
| WaypointCycle.AdvancesCycle | apps/mavlink/waypoints.c:416-425 | k advances from a >= 1 reach 1 + (a-1+k) mod (size-1) |
| WaypointFlight.AdvancesIff | apps/mavlink/waypoints.c:397-436 | looking at the position sends a setpoint exactly when dwell time and arrival allow it, and only then changes the active waypoint |
| WaypointFlight.RunFollowsCycle | apps/mavlink/waypoints.c:413-432 | over any stretch of a run without SET_CURRENT or a change of list, k advances take the active waypoint a >= 1 to 1 + (a-1+k) mod (size-1) |
| WaypointCycle.EveryWaypointRecurs | apps/mavlink/waypoints.c:416-425 | every index but 0 comes round within one cycle |
| WaypointFlight.StepKeepsOneCurrent | apps/mavlink/waypoints.c:639-649 | SET_CURRENT leaves exactly the active item flagged, and advances and all else but a new list or an announced empty one keep that |
| WaypointFlight.RunKeepsOneCurrent | apps/mavlink/waypoints.c:413-432 | the same over any stretch of a run |
| WaypointLaws.SameMissionIffSameData | apps/mavlink/waypoints.c:193-201 | what is kept through upload, storage and download is every field but the `current` flag and the addressee |
| WaypointLaws.StartsEmptyAndIdle | apps/mavlink/waypoints.c:70-91 | a manager starts empty and idle, without partner or active waypoint |
| WaypointLaws.UnheardIgnored | apps/mavlink/waypoints.c:594-1115 | what is not addressed to the manager, or acknowledges or requests from a stranger, changes and sends nothing; all else counts as action |
| WaypointLaws.UntimelyRefused | apps/mavlink/waypoints.c:639-1115 | a message in a phase it does not belong to is refused: nothing is sent and only the time of the last action may change |
| WaypointLaws.SetCurrentSelects | apps/mavlink/waypoints.c:637-662 | SET_CURRENT of a listed item in Idle makes it active, flags it alone, broadcasts it and sends its data as setpoint |
| WaypointLaws.RequestServesItem | apps/mavlink/waypoints.c:734-771 | the partner's request for item 0, the last item again or the next one gets the stored data under the partner's address |
| WaypointLaws.AckEndsDownload | apps/mavlink/waypoints.c:599-614 | the partner's ACK for the last item returns the manager to Idle and changes nothing else |
| WaypointLaws.AsksOnlyForWhatFits | apps/mavlink/waypoints.c:212-230 | only items 0 to 14 are ever asked for |
| WaypointLaws.CommitActivatesFirstFlagged | apps/mavlink/waypoints.c:1035-1060 | a committed upload makes its first flagged item active, or none if none is flagged |
| WaypointLaws.AdvanceMovesFlag | apps/mavlink/waypoints.c:413-432 | an advance sets the next waypoint's flag to 1, clears the last one's and touches no other |
| WaypointLaws.ClearAndEmptyAnnouncement | apps/mavlink/waypoints.c:1111-1123 | CLEAR_ALL empties the list; an announced empty list ends the flight and leaves the list |
| WaypointLaws.TimesOutAround | apps/mavlink/waypoints.c:450-467 | a transfer ends exactly when more than 5 000 000 ticks lie between the last action and now, on a 64-bit clock that may have gone round |
| WaypointLaws.LosslessUploadOnTheWire | apps/mavlink/waypoints.c:862-1063 | a station announcing 1 to 15 items to an idle manager and sending them in order is asked for each, gets the ACK, and its list is held |
| WaypointLaws.LosslessDownloadOnTheWire | apps/mavlink/waypoints.c:599-771 | a station asking for the list, for each item in order and acknowledging is told the length, gets every stored item, and leaves the manager idle |
| WaypointManager.Manager.constructor | apps/mavlink/waypoints.c:70-91 | initialisation gives the initial state, which satisfies the invariant |
| WaypointManager.Manager.HandleMessage | apps/mavlink/waypoints.c:480-1140 | one handler call takes exactly the model's step, sends exactly its messages, and keeps the invariant |
| WaypointManager.Manager.EventLoop | apps/mavlink/waypoints.c:447-477 | one event-loop pass takes exactly the model's step |
| WaypointManager.Manager.CheckWaypointsReached | apps/mavlink/waypoints.c:353-444 | observing, announcing and advancing in place equal the model's three steps |
| WaypointManager.Manager.FlagCurrent | apps/mavlink/waypoints.c:642-649 | the loop flags exactly one of the first `size` items and touches no other |
| WaypointManager.Manager.CopyReceived | apps/mavlink/waypoints.c:1031-1033 | the loop puts the received items over the first `count` live ones |
| WaypointManager.Manager.FindCurrent | apps/mavlink/waypoints.c:1039-1050 | the loop finds the first flagged item, or none |
| WaypointManager.Manager.SwitchList | apps/mavlink/waypoints.c:1017-1060 | acknowledging, switching and activating in place equal the model's commit |
| NshTokens.RoundTrip | apps/nshlib/nsh_parse.c:864-999 | printing any list of quoted and bare words and redirections, blanks between and an optional comment behind, and scanning it gives the same list and then the end |
| NshTokens.Scan | apps/nshlib/nsh_parse.c:864-999 | every token but the end takes at least one character, and scanning stays in the line exactly if the next word is not a lone quote |
| NshTokens.TailOkIff | apps/nshlib/nsh_parse.c:905-912 | behind the last word may stand nothing, blanks, or blanks and a comment |
| NshTokens.EmptyQuotesReadOn | apps/nshlib/nsh_parse.c:917-943 | behind a pair of quotes with nothing between the word goes on to the next quote |
| NshTokens.SearchStaysInLineIff | apps/nshlib/nsh_parse.c:917-943 | the search for a word's end starts inside the line, or at its terminator, exactly if the word is not a lone quote |
| NshTokens.LoneQuoteLeavesLine | apps/nshlib/nsh_parse.c:917-943 | on a line of one quote it starts behind the terminator, and the word read is empty |
| NshBuffer.Argument | apps/nshlib/nsh_parse.c:864-999 | one call on the line buffer finds the model's token, lone quotes included, terminates a word in place and advances the save pointer; only the part scanned changes, and only for a word |
| NshBuffer.TakeWord | apps/nshlib/nsh_parse.c:930-955 | the delimiter behind a word becomes its NUL and the word is the C string at its start |
| NshBuffer.ScannableIsReadable | apps/nshlib/nsh_parse.c:864-999 | a line that holds all its tokens is read as what it says, whatever lies behind it in the buffer |
| NshBuffer.DenotesKept | apps/nshlib/nsh_parse.c:946-955 | a word found earlier keeps what it points to through every later call |
| NshParser.ParseKeepsInv | apps/nshlib/nsh_parse.c:1032-1192 | any line, well-formed or not, keeps: index below the depth, slot 0 plain and enabled, inner slots in a branch, each slot disabled just when its parent is not enabled |
| NshParser.LinesKeepInv | apps/nshlib/nsh_parse.c:1244-1315 | so does any sequence of lines |
| NshParser.EnabledIffAllSelect | apps/nshlib/nsh_parse.c:1006-1029 | a command runs exactly when every open level selects the branch it is in |
| NshParser.PopNeverUnderflows | apps/nshlib/nsh_parse.c:1122-1152 | with a branch on top the stack has a level to pop, so the internal error is unreachable |
| NshScript.LinesRunProgram | apps/nshlib/nsh_parse.c:1032-1192 | feeding a program of commands and nested conditionals line by line runs exactly the commands its structured meaning runs, in order, sets `$?` as it says, and leaves the stack as it was; in a skipped level nothing happens |
| NshScript.BranchesRun | apps/nshlib/nsh_parse.c:1085-1152 | from behind `then` to behind `fi` exactly the selected branch runs and the level is closed |
| NshScript.TextRunsProgram | apps/nshlib/nsh_parse.c:1283-1315 | the same for text lines, however spaced, quoted or commented, with blank lines anywhere |
| NshScript.TooDeepIfDropsAllLevels | apps/nshlib/nsh_parse.c:1068-1084 | an `if` at full depth is refused, resets the stack and enables commands |
| NshScript.IfLine | apps/nshlib/nsh_parse.c:1043-1084 | an `if` line opens a level exactly if the stack has room; then its test runs only if it is reached, the outcome goes to the level and `$?` is cleared; otherwise all levels are dropped |
| NshScript.PrintedProgramRuns | apps/nshlib/nsh_parse.c:864-1192 | a program printed in any layout of quoted and bare words, with comments, and fed line by line runs as it means |
| NshDepth.RefusedIffTooDeep | apps/nshlib/nsh_parse.c:1068-1084 | some line of a program is refused if and only if its conditionals nest deeper than the stack has room for, whatever the commands do |
| NshGrammar.AcceptedIffBeginsProgram | apps/nshlib/nsh_parse.c:1032-1162 | whatever the commands do, a sequence of lines is accepted if and only if it begins a well-nested program with no more conditionals open at once than the stack has room for |
| NshGrammar.BlankLine | apps/nshlib/nsh_parse.c:1281-1300 | a blank line is accepted anywhere and changes nothing |
| NshLaws.CommandRuns | apps/nshlib/nsh_parse.c:957-998 | where commands run, a name and an argument run as that command, the argument read as it should: `$?` as 1 or 0, `$name` as the variable, quotes kept, redirections as their signs |
| NshLaws.StatusOfCommand | apps/nshlib/nsh_parse.c:964-976 | behind any command `$?` reads 1 if it failed and 0 if it succeeded |
| NshLaws.IfPicksBranch | apps/nshlib/nsh_parse.c:1006-1029 | exactly the first branch runs if the test succeeds and the second if it fails, and `$?` is 0 at its start |
| NshLaws.RefusedLineResets | apps/nshlib/nsh_parse.c:1154-1192 | a refused line runs nothing, counts as failed, and leaves the shell at the bottom level, enabled |
| NshLaws.SecondRunsIff | apps/nshlib/nsh_fscmds.c:1256-1276 | of two commands in a script the second runs exactly if the first succeeds |
| NshLaws.TestNeverStops | apps/nshlib/nsh_parse.c:1175-1192 | a failing `if` test does not stop a script |
| NshRunner.PlayRunsProgram | apps/nshlib/nsh_fscmds.c:1256-1276 | running a program's lines until one fails does what the program means up to its first failing command outside an `if` test, and stops with exactly the conditionals around that command open |
| NshRunner.UntilIsExec | apps/nshlib/nsh_parse.c:1168-1192 | up to there a script runs what the whole program would run, and all of it if nothing fails |
| NshRunner.LevelsLeftOpenIff | apps/nshlib/nsh_fscmds.c:1256-1276 | a script leaves the shell's levels as it found them exactly if no command inside a branch failed |
| NshRunner.ScriptRunsProgram | apps/nshlib/nsh_fscmds.c:1228-1282 | the same for a script file as text |
| NshShell.Shell.CmdEnabled | apps/nshlib/nsh_parse.c:1006-1029 | the check on the stack array is the model's |
| NshShell.Shell.NextWord | apps/nshlib/nsh_parse.c:957-998 | one word at a time, expanded, the words of the line come in order, each read as its token should be, and words found earlier still read the same |
| NshShell.Shell.ControlWord | apps/nshlib/nsh_parse.c:1032-1162 | acting on a control word in place, pulling words as needed, equals the model's transition |
| NshShell.Shell.SaveOutcome | apps/nshlib/nsh_parse.c:1168-1192 | an `if` test sets the level's condition and clears `$?`, any other command sets `$?` |
| NshShell.Shell.CollectArgs | apps/nshlib/nsh_parse.c:1330-1340 | the argument vector is the command cut to the words that fit, and when all of it is collected each pointer into the line still reads as its word |
| NshShell.Shell.Execute | apps/nshlib/nsh_parse.c:1330-1560 | the command is run once with its argument vector, and its outcome recorded; only a failure that is not an `if` test's is an error |
| NshShell.Shell.Parse | apps/nshlib/nsh_parse.c:1254-1560 | parsing a line buffer in place equals the model's line step, returns an error exactly for a refused line or a failing command, and a line of a name and `$?` runs the name with 1 or 0 as the last command failed or not |
| NshShell.Shell.Script | apps/nshlib/nsh_fscmds.c:1228-1282 | reading lines into the buffer until one fails equals the model's run of the file, and keeps the stack invariant |
| Checksums32.TableIsEightSteps | Tools/px_uploader.py:72-104 | every table entry is eight bit steps of the reflected polynomial 0xEDB88320 on its index |
| Checksums32.TableStepIsByteStep | Tools/px_uploader.py:123-127 | the table-driven step equals eight bit steps for every state and byte |
| Checksums32.CrcConcat | Tools/px_uploader.py:123-127 | the CRC of a concatenation is the composition of the CRCs |
| Checksums32.CrcInjective | Tools/px_uploader.py:123-127 | different states stay different over any bytes |
| Checksums32.CrcOfWord | Tools/px_uploader.py:123-127 | up to four bytes are absorbed as one little-endian word |
| Checksums32.BurstChangesCrc | Tools/px_uploader.py:123-127 | sequences that differ only inside four consecutive bytes have different CRCs from any state |
| Uploader.PadWordsExactIff | Tools/px_uploader.py:129-133 | the padding loop covers exactly the rest of the flash if and only if that rest is whole words |
| Uploader.PadWordsCounts | Tools/px_uploader.py:131 | the padding loop feeds one word for each fourth place before the last cell, whatever the rest |
| Uploader.SplitLenIsPartition | Tools/px_uploader.py:278-280 | the chunks concatenate to the sequence |
| Uploader.SplitLenSizes | Tools/px_uploader.py:278-280 | no chunk is empty or too long, only the last may be short, whole words stay whole |
| Uploader.Firmware.constructor | Tools/px_uploader.py:108-118 | the loop pads the image with 0xff to whole words |
| Uploader.Firmware.PaddedCrc | Tools/px_uploader.py:129-133 | the CRC of the image followed by the erased words the loop covers |
| Uploader.Crc32 | Tools/px_uploader.py:123-127 | the table-driven loop computes the bitwise CRC of any bytes from any state |
| Uploader.Program | Tools/px_uploader.py:283-287 | programming the chunks in order leaves the image and then erased flash |
| Uploader.VerifyV3 | Tools/px_uploader.py:303-312 | the reported CRC is accepted exactly when it is that of the padded image |
| Uploader.VerifyV2 | Tools/px_uploader.py:293-301 | reading back in chunks accepts exactly a flash that starts with the image |
| Uploader.Verify | Tools/px_uploader.py:343-347 | revision 2 accepts exactly a flash that starts with the image, every other one exactly a flash whose CRC is that of the image and erased cells |
| Uploader.IntendedPasses | Tools/px_uploader.py:303-312 | what an upload intends passes under every revision, and by its CRC nothing does that differs inside four consecutive bytes |
| Uploader.Upload | Tools/px_uploader.py:331-353 | with a flash whose contents may go wrong after writing: uploaded exactly if the final contents start with the padded image (revision 2) or have the CRC of the padded image and erased cells (others), always if they stayed as written, never by CRC if they differ inside four consecutive bytes; refused untouched for another board or a flash too small |
| Uploader.VerifyRejectsBurst | Tools/px_uploader.py:303-312 | verification refuses every flash that differs inside four consecutive bytes |
| Fletcher.ClosedForm | apps/gps/ubx.c:90-94 | the running sums are the plain and the weighted byte sum mod 256 |
| Fletcher.OneAlteredByteNoticed | apps/gps/ubx.c:90-94 | one altered byte always changes the checksum |
| Fletcher.TwoAlteredBytesMissedIff | apps/gps/ubx.c:90-94 | two altered bytes are missed exactly when the changes cancel and distance times change is a multiple of 256 |
| Fletcher.OddDistanceNoticed | apps/gps/mtk.c:79-84 | two altered bytes at an odd distance always change the checksum |
| Fletcher.CorruptionNoticed | apps/gps/ubx.c:90-94 | one altered byte, or two at an odd distance, never go unnoticed |
| Ubx.FrameDecodes | apps/gps/ubx.c:100-228 | an intact frame is consumed whole, reported at its last byte exactly if its checksum is right, and leaves the decoder reset |
| Ubx.StreamDecodes | apps/gps/ubx.c:100-228 | over any stream of frames and noise exactly the right frames are reported, each at its last byte |
| Ubx.PayloadByte | apps/gps/ubx.c:213-221 | each payload byte goes into the buffer and the checksum, whatever it is |
| Ubx.ChecksumDecodes | apps/gps/ubx.c:221-250 | the two checksum bytes are compared where the message's structure, or the received length, puts them |
| Ubx.SyncFreeStreamDecodes | apps/gps/ubx.c:100-228 | the same over any stream whose noise is free of the first sync byte |
| Ubx.StraySyncLosesFrameStart | apps/gps/ubx.c:103-116 | behind any noise, a stray first sync byte swallows the start of the next frame |
| GpsMessages.ListedReportedIff | apps/gps/ubx.c:118-258 | each of the seven messages, by class, id and payload length, is reported at its last byte exactly if the last two bytes are the plain and the weighted sum of what lies behind the sync bytes |
| GpsMessages.ListedLengths | apps/gps/ubx.h:79-216 | those lengths are what the fields of the packet structures add up to |
| GpsMessages.UnlistedResets | apps/gps/ubx.c:118-195 | any other class or id resets the decoder at that byte |
| GpsMessages.MtkReportedIff | apps/gps/mtk.c:88-177 | 33 payload bytes are reported exactly if the next two are their plain and weighted sum |
| Ubx.RoutinesCoverTheSame | apps/gps/ubx.c:557-575 | the packet checksum routine covers what the sender covers |
| Ubx.NoiseIff | apps/gps/ubx.c:103-116 | what may stand between frames is exactly what leaves the decoder looking for the first sync byte without entering a frame |
| Ubx.CorruptedRejected | apps/gps/ubx.c:235-258 | a right frame with one altered payload byte, or two at an odd distance, is consumed whole and never reported |
| Ubx.WriteConfigMessage | apps/gps/ubx.c:685-706 | the sender appends the checksum of all but the sync bytes |
| Ubx.SendAndDecode | apps/gps/ubx.c:685-706 | a supported message framed by the sender is always reported by a reset decoder |
| Ubx.CalculateChecksum | apps/gps/ubx.c:557-575 | the packet checksum routine stores the same checksum in the last two bytes |
| Ubx.Decoder.ParseByte | apps/gps/ubx.c:100-555 | the in-place decoder takes the model's step on every byte |
| Mtk.FrameRuns | apps/gps/mtk.c:88-177 | a frame is consumed whole and reported at its last byte exactly if right |
| Mtk.StreamRuns | apps/gps/mtk.c:88-177 | over any stream of frames and noise exactly the right frames are reported |
| Mtk.SyncFreeStreamRuns | apps/gps/mtk.c:88-177 | the same over any stream whose noise is free of the first sync byte |
| Mtk.CorruptedRejected | apps/gps/mtk.c:107-117 | a right frame with one altered payload byte, or two at an odd distance, is consumed whole and never reported |
| Mtk.Decoder.ParseByte | apps/gps/mtk.c:88-181 | the in-place decoder takes the model's step on every byte |
| Dd.ExpectedByte | apps/nshlib/nsh_ddcmd.c:581-622 | the output is the input from skip*bs on, with zeros behind its end |
| Dd.ExpectedLength | apps/nshlib/nsh_ddcmd.c:581-622 | it is as many whole sectors as are chosen and the input reaches |
| Dd.WholeCopyKeepsInput | apps/nshlib/nsh_ddcmd.c:581-622 | copying all sectors keeps the whole input and adds less than a sector |
| Dd.Copy.ReadChar | apps/nshlib/nsh_ddcmd.c:302-325 | short reads add up to a full sector or all that is left; it fails exactly if a read does |
| Dd.Copy.ReadBlock | apps/nshlib/nsh_ddcmd.c:276-297 | a block input is read at sector*bs, as far as it reaches; it fails exactly if the device does |
| Dd.Copy.WriteChar | apps/nshlib/nsh_ddcmd.c:245-270 | short writes add up to exactly the sector; it fails exactly if a write does, with a prefix out |
| Dd.Copy.WriteBlock | apps/nshlib/nsh_ddcmd.c:211-239 | a sector goes to offset (sector-skip)*bs as far as the device reaches; past its end the transfer stops; it fails exactly if the device does |
| Dd.Copy.Transfer | apps/nshlib/nsh_ddcmd.c:581-622 | for every pattern of short and failing calls the loop ends; it succeeds exactly if no call failed, always with reliable devices, and then exactly the chosen sectors are out; otherwise a prefix of them is; a block device holds them over its old contents |
| Dd.Copy.Run | apps/nshlib/nsh_ddcmd.c:540-546 | skipping more than is to be copied is refused and touches nothing; any other copy succeeds exactly if no device failed |
| Ardrone.PackedIsCommand | apps/ardrone_interface/ardrone_motor_control.c:67-100 | the five or-ed bytes are the big-endian word 001 m1 m2 m3 m4 0 |
| Ardrone.PacketRoundTrip | apps/ardrone_interface/ardrone_motor_control.c:67-100 | decoding the word returns each motor mod 512 and the start and end bits |
| Ardrone.GetMotorPacket | apps/ardrone_interface/ardrone_motor_control.c:67-100 | filling the buffer in place gives that word and leaves the rest of the buffer alone |
| Ardrone.MixerStaysInRange | apps/ardrone_interface/ardrone_motor_control.c:373-464 | for thrust up to full every motor value is in 19..500, so the failsafes are dead and nothing is lost on the wire |
| Ardrone.AboveFullThrust | apps/ardrone_interface/ardrone_motor_control.c:398-437 | above full thrust every motor gets one value whatever the attitude |
| Ardrone.LosslessIff | apps/ardrone_interface/ardrone_motor_control.c:439-461 | a motor value survives the packet exactly below thrust 269/245; from there on the wire carries 0 |
| Ardrone.Mix | apps/ardrone_interface/ardrone_motor_control.c:403-432 | the in-place mixer computes each motor's share, with yaw halved exactly when one motor would leave the band: the sums front minus back, left minus right, odd minus even and all together are twice pitch, twice roll, four times yaw and four times thrust |
| Ardrone.Limit | apps/ardrone_interface/ardrone_motor_control.c:434-443 | the loop clamps every motor to the band |
| Ardrone.WireIsNineBits | apps/ardrone_interface/ardrone_motor_control.c:439-461 | the nine bits kept of a motor value after both failsafes are its value on the wire |
| Ardrone.MorePitch | apps/ardrone_interface/ardrone_motor_control.c:398-443 | with the weight of yaw unchanged more pitch never lowers motors 0 and 1 nor raises 2 and 3 |
| Ardrone.MoreRoll | apps/ardrone_interface/ardrone_motor_control.c:398-443 | likewise more roll, motors 0 and 3 against 1 and 2 |
| Ardrone.MoreYaw | apps/ardrone_interface/ardrone_motor_control.c:398-443 | likewise more yaw, motors 1 and 3 against 0 and 2 |
| Ardrone.PitchCanLowerFront | apps/ardrone_interface/ardrone_motor_control.c:410-431 | where yaw loses half its weight more pitch lowers motor 1, from 345 to 311 |
| Ardrone.SomePitch | apps/ardrone_interface/ardrone_motor_control.c:398-450 | pitch 0.1 at half thrust gives 279, 279, 230, 230 |
| Ardrone.FullPitch | apps/ardrone_interface/ardrone_motor_control.c:380-443 | how far the motors part at full pitch, for every thrust up to full |
| Ardrone.LevelFlight | apps/ardrone_interface/ardrone_motor_control.c:446-450 | without roll, pitch and yaw every motor gets 10 plus 490 times the thrust |
| Ardrone.FailsafeRange | apps/ardrone_interface/ardrone_motor_control.c:454-464 | the failsafes keep 1 to 512 and turn all else into 10 or 512 |
| Ardrone.CommandsToTheBit | apps/ardrone_interface/ardrone_motor_control.c:67-100 | some command words, bit by bit |
| Ardrone.MotorValues | apps/ardrone_interface/ardrone_motor_control.c:373-461 | mixing, clamping, scaling and both failsafes in place give the model's motor values |
| Ardrone.MixingAndOutput | apps/ardrone_interface/ardrone_motor_control.c:373-464 | the packet sent for any command reads back as the model's wire values, and up to full thrust as the mixer's own values, 19 to 500 |

## Left out

- Message handler and event loop are taken as atomic steps; the threads that call them are not modelled.
- WaypointManager.Manager.HandleMessage: requires that an item's slot is inside the receive buffer; what a write behind it does is undefined. The code does not check it, and `AlwaysRunsIff` says when it can happen.
- The waypoint fields that are written but never read: yaw_reached, timestamp_lastoutside_orbit, timestamp_last_send_setpoint, delay_setpoint and the acceptance ranges.
- Distances to a waypoint are arbitrary real numbers per frame; the trigonometry, and float rounding in dwell-time comparisons, are not modelled.
- MISSION_COUNT 0: modelled as coded, it clears the active waypoint and leaves the list.
- Text feedback, UART, polling, uORB, GPIO, sleeps and mutexes, and the minimum interval between two motor packets.
- Shell: background commands, `nice` and nested `sh`; redirection is part of what the command oracle decides.
- NshShell.Shell.NextWord, ControlWord, CollectArgs and Execute: require the same of every search still to come on the line.
- NshShell.Shell.Parse: requires the same of every search on the line, which may go on in what lies behind it.
- NshShell.Shell.Script: takes the pieces `fgets` delivers as given, each shorter than the buffer, without NUL and without a lone quote, behind which the words would depend on what earlier lines left in the buffer; finding and opening the file is left out.
- NshBuffer.Argument: requires that behind a lone quote there is another NUL in the buffer for the search to end at; without one the code reads behind the buffer.  Empty quoted strings scan as coded but are outside the round trip.
- NshScript.LinesRunProgram: command names are written out; a name that comes from a variable could expand to a control word.
- GPS payload interpretation, the watchdog and read loops, and the sizing of the receive buffer: each byte is required to fit. The checksum comparison takes buffer bytes as unsigned, as on the ARM target.
- Uploader: the bootloader is not part of the repository; flash is assumed erased to 0xff and written in arrival order. The serial framing, the sync protocol and the reboot. The size an image file declares is taken to be that of its image.
- Dd.Copy.Transfer: requires sector numbers, and for block devices byte offsets, to fit 32 bits; the code's wrap-around beyond that is written out but not followed further. A write that makes no progress is excluded.
- Argument parsing of `dd`, opening and closing of its files.
- Ardrone: arithmetic is over the reals; a motor value beyond 65535, for thrust from 532 on, is undefined in C and taken as large here.
- `cat`, `cp`, the commander state machine, controllers, estimators and drivers.
