# Proofs about the network-disk sync daemon

This project models the algorithms of the daemon and proves what they promise. It is plain
Dafny 4.11; `dafny verify dfyconfig.toml` checks all of it.

**Segmented download** (`DownloadTable`, `DownloadProtocol`, `DownloadInvariant`, `DownloadSafety`,
`DownloadLoss`, `DownloadRuns`, `DownloadStop`, `DownloadController`). A file is cut into up to four segments; four worker threads write into one
temporary file whose trailer, behind the data, holds the saved segments; a controller polls,
saves, interrupts, resumes and finally truncates. `DownloadProtocol` is the transition system and
its invariant, `DownloadInvariant` proves that every step keeps it, `DownloadSafety` that a completed
download is the remote file, `DownloadLoss` gives the exact condition under which a save is safe together with
runs that break it, `DownloadRuns` says exactly which files an unguarded run can corrupt, `DownloadStop` that workers told to
stop record no progress until the table is built anew, and `DownloadController` holds the routines of `web_api.c` as methods over
an array of slots, each proved to be one step of the protocol.

What the protocol assumes of its environment stands in `Enabled`: a transfer delivers the remote
bytes in order from the requested offset and never more than requested, an error response delivers
nothing, a progress report never exceeds what was written, a trailer save is one step, and no worker
is at work while the table is rebuilt. A segment
saved at full length later asks for an open-ended range; such a worker may write any correct byte
up to the end of the file. Every other interleaving is allowed, a crash included.

Four places where the code does not keep the promise are stated as theorems, each with its exact
condition:

- both save routines leave out a segment whose worker was told the file does not exist, so a
  resumed download can report a file with a hole as complete. A single save is safe if and only if
  the guard `DropsNothing` holds, a test on the table just before it (`SaveIsSafeIff`); the main
  theorem carries that guard. Without it, some run reports other bytes for exactly those files
  that are not all zeros and whose workers can all begin (`CorruptibleIff`);
- a worker keeps `lseek`'s result in an `int`, so a completed transfer that began at an offset
  congruent to -1 or -2 modulo 2^32 is reported as failed or as not found
  (`CompleteReportsOkIff`);
- with a 64-bit `size_t` a trailer with a negative `ds` is thrown away although the code has a
  branch that repairs it (`ReloadAcceptsIff`); guarded runs do write such trailers
  (`NegativeDsIsSaved`);
- a local path that exists counts as a finished download whatever it holds, because the test of its
  size is joined with "or" (`Start`); and when it comes into being during a download, the finished file
  is put beside it, under the name built for the old one, and success is reported (`ChkFinish`).

**Download scheduler** (`TaskScheduler`, `TaskSafety`, `TaskTables`). The tables DOWN and DETABLE under the
listing thread, the controller and the handlers for start, pause and delete. Two things go wrong, and
for both it is proved exactly when. Deleting is two critical sections: the path is back in DOWN
afterwards if and only if a listing between them put it there and nothing removed it again. And a
restart while a row is ING, and no other step, leaves an orphan: a row marked ING that nobody
downloads, until it is picked again, or its path is started, paused or deleted, or everything is paused.

**cJSON** (`JsonText`, `JsonRoundTrip`, `JsonPrinter`, `JsonBuffer`, `JsonParser`, `JsonMinify`). The
reference printer and reader as functions, the round trip between them, and the routines of `cJSON.c` as
methods: two-pass printing into measured buffers, the recursive parser, the in-place minifier.
`JsonBuffer` says exactly when the buffer measured for a string literal is large enough. `JsonGrammar`
states which texts are read, and as which trees, as a grammar, and proves that the parser accepts exactly
those; `JsonEscapes` and `JsonNumbers` say what every spelling of a string and of a number is read as,
`JsonLayout` what a printed tree looks like, and `JsonMinifyLaws` what minifying does to any text.
`JsonChildren` holds the operations on a list of children, linked on the heap.
**Page scanner** (`YunData`): the bracket scanner with its 32-entry stack; `YunLaws` says what it does on any page.

**dv packets** (`DvBytes`, `DvItems`, `DvPacket`, `PcsBuffer`, `DvPackage`). Base64 with a prefix,
chained XOR, the checksum, the fifteen kinds of item with their decoders, the growable buffer, the
package that pushes at either end, and the reader that decodes in place. `DvFormat` states the format
itself, field by field and bit by bit.

**Smaller loops.** `PathResolve` (the path normaliser) with `PathLaws` (what each name of a path does),
`Utf8Char`, `Utf8Strings` and `Utf8Walk` with `Utf8Laws` (the bytes and tables themselves),
`FileList` (the doubly linked list with removal under an iterator, over `LinkedNodes`), `WorkerPool` (the two web
workers), `PercentCoding` (percent-encoding, which loses bytes below 16).

`Wrappers` holds the shared option type, bytes, C strings and small helpers. A C string is the sequence of its
bytes before the terminator; arrays stand for the C buffers that are written in place.

## Model

| member | source | states |
|---|---|---|
| DownloadInvariant.InitPartition | web_api.c:1551-1571 | For every positive size there is one segment below 10 MiB and are four otherwise; they are non-empty, consecutive, disjoint, numbered from 1, start at 0 and end at the last byte, all but the last of equal length, and each `downSzie` is the segment length. |
| DownloadInvariant.InitCovers | web_api.c:1572-1602 | Every offset lies in a segment of the fresh table and of the first trailer. |
| DownloadInvariant.WriteStaysInData | web_api.c:2434-2456 | In every state of the invariant a delivered write ends at or below the file size, so the trailer behind the data is never damaged. |
| DownloadInvariant.SaveKeepsCover | web_api.c:553-571 | A save that leaves out no unfinished segment keeps every wrong byte inside a saved segment, for both save routines. |
| DownloadInvariant.ReloadCovers | web_api.c:1648-1666 | The table rebuilt from a trailer covers every byte the trailer covered. |
| DownloadInvariant.AllDoneIsRemote | web_api.c:602-626 | When every used slot stopped with success the data part equals the remote file. |
| DownloadInvariant.StepKeeps | web_api.c:408-652 | Each of the sixteen kinds of step (workers, polls, saves, interrupts, crashes, resumption) keeps the invariant: shapes, order, good prefixes and coverage in live table and trailer. |
| DownloadSafety.RunKeeps | web_api.c:1867-1994 | The invariant holds after every guarded run. |
| DownloadSafety.CompletedDownloadIsRemote | web_api.c:592-652 | In every interleaving of four workers, controller and crashes in which no save meets an unfinished segment reported as not found, a completed download is exactly the remote bytes. |
| DownloadSafety.CompletedWithoutNotFoundIsRemote | web_api.c:2457-2475 | In every run in which no worker stops with the code for not found, whatever else happens, a completed download is exactly the remote bytes, with no condition on the saves. |
| DownloadSafety.NeverAbsentIsFound | web_api.c:2435-2475 | For every file below 4 GiB less two bytes such are all runs in which the server never answers 404. |
| DownloadSafety.EveryByteAccountedFor | web_api.c:530-590 | In every such state each offset is right or inside the open part of a segment, in the live table and in the saved trailer. |
| DownloadLoss.SaveIsSafeIff | web_api.c:454-466 | A save keeps every missing byte, whatever the file holds, if and only if no slot is reported as not found with bytes still missing. |
| DownloadTable.SavedSegments | web_api.c:454-562 | Slot by slot, what each save writes: an interrupt leaves out the slots whose worker stopped with success or with not found, the periodic save also those at full length. |
| DownloadLoss.UnguardedSaveCorrupts | web_api.c:557-562 | A run in which the work goes on after the loss: for every remote file of 10 MiB up to 2 GiB with a non-zero byte in its second quarter, three resumed segments are downloaded to their end and a different file is reported as complete. |
| DownloadRuns.CorruptibleIff | web_api.c:454-466 | Over all unguarded runs and all non-empty remote files: some run reports other bytes as complete if and only if the remote file is not all zeros and no initial segment begins at an offset that the worker truncates to -1. |
| DownloadRuns.NeverReports | web_api.c:2435-2446 | A file with such a segment is never reported as complete, in any run. |
| DownloadRuns.RunKeepsZeros | web_api.c:592-626 | Every unguarded run of a remote file of zeros keeps the temporary file and the result at its size and at zeros. |
| DownloadLoss.ReloadAcceptsIff | web_api.c:1649-1655 | A saved trailer is accepted again if and only if `size_t` is 32 bits wide or no saved `ds` is negative. |
| DownloadRuns.NegativeDsIsSaved | web_api.c:846-851 | For every file of 10 MiB or more whose quarter is not truncated to -1 a guarded run of fourteen steps writes a trailer whose first `ds` is negative; reading it back throws the file away exactly with a 64-bit `size_t`. |
| DownloadLoss.SavedProgressIsLiveProgressIff | web_api.c:3619-3622 | Progress recomputed from a trailer is never below the live progress, and equal exactly when every segment the save left out is at full `ds`. |
| DownloadLoss.ReloadKeepsProgress | web_api.c:1657-1665 | Resuming from a trailer without negative `ds` starts at the progress the trailer shows. |
| DownloadTable.ProgressCounts | web_api.c:519-524 | Changing one slot changes the displayed progress by exactly the bytes it gained; with no slot in use it is the size. |
| DownloadTable.SavedProgressCounts | web_api.c:3619-3622 | Each saved segment takes what it misses off the progress that a trailer shows. |
| DownloadLoss.CompleteReportsOkIff | web_api.c:2435-2476 | A worker that completed its transfer reports success exactly when its first offset is not congruent to -1 or -2 modulo 2^32, because `lseek`'s result is kept in an `int`. |
| DownloadController.MultiDownload.InitInfo | web_api.c:1539-1603 | The initialising loops, in place, are the protocol's Init step: table and first trailer, or an empty table and no file when the file cannot be opened or the trailer not be written. |
| DownloadController.MultiDownload.SetStart | web_api.c:395-406 | Every used slot is told to work, and nothing else changes. |
| DownloadController.MultiDownload.InitInfoFromFile | web_api.c:1605-1671 | Reading the trailer back is the Reload step: it succeeds exactly when no segment has a number above four, a `ds` above the size, or, with a 64-bit `size_t`, a negative one; then the segments are in the slots in order, with negative `ds` set to 0; otherwise table and file are gone. |
| DownloadController.MultiDownload.Start | web_api.c:1886-1953 | Nothing to do exactly for an empty file or an existing local path; else resume when the file carries a trailer, else create and initialise, with each way to fail; each is the corresponding run of the protocol. |
| DownloadController.MultiDownload.RaiseInterrupt | web_api.c:419-424 | The stop flag is set to 1 on every used slot, and nothing else changes. |
| DownloadStop.StopTellsAll | web_api.c:408-508 | Whenever the controller stops polling with segments left, by an interrupt, a failed worker or a file that is gone, every used slot has been told to stop, so that none can record progress, and segments and codes are as they were. |
| DownloadStop.StoppedUntilRebuilt | web_api.c:829-841 | A step keeps the workers stopped if and only if it does not build the table anew. |
| DownloadStop.StopIsObeyed | web_api.c:829-841 | After the stop no used slot records progress in any state of any run up to the next table. |
| DownloadStop.StopFreezesProgress | web_api.c:829-854 | Over such a run the segment of every slot stays what it was, as long as the slot is in use. |
| DownloadController.MultiDownload.WriteInterruptInfo | web_api.c:451-481 | The save after an interrupt is the Commit step: the kept segments in slot order, and the next control state. |
| DownloadController.MultiDownload.UpdateMdinfo | web_api.c:530-590 | The periodic save is the Save step, and writes nothing when no segment is left. |
| DownloadController.MultiDownload.ChkCondition | web_api.c:484-508 | Fails exactly when some worker stopped with an error, and then every used slot is told to stop; otherwise exactly the waiting slots are woken. |
| DownloadController.MultiDownload.UpdateProgress | web_api.c:510-528 | The displayed progress is the size minus what all used slots still miss, slot by slot. |
| DownloadController.MultiDownload.ChkFinish | web_api.c:592-652 | Completion exactly when every used slot succeeded and the file exists; gone exactly when a not-found slot comes before any busy one; the new state is the CheckFinish step. The finished bytes, the remote ones in every state of the invariant, go to the local path exactly when it is free, else beside it. |
| DownloadController.MultiDownload.TransCallback | web_api.c:829-854 | Asks to stop exactly on the stop flags, ignores a zero total, and otherwise sets `ds` of its own slot, and nothing else, to the segment's length less what the transfer still lacks: the Report step when the total is the worker's own. |
| DownloadController.MultiDownload.WorkerBegin | web_api.c:2406-2446 | The start of a worker's round: it begins a transfer exactly when the file opens and the truncated offset is not -1, and otherwise stops with an error. |
| DownloadController.MultiDownload.WorkerExit | web_api.c:2457-2483 | The end of a worker's round is the Finish step with the code the truncated return value selects. |
| DownloadController.MultiDownload.GetDownFileSize | web_api.c:3578-3627 | Everything when the local file has the size, else the size minus what the saved segments still miss, or 0 without a trailer. |
| DownloadController.MultiDownload.Poll | web_api.c:1955-1991 | One round of the polling loop is exactly this sequence of protocol steps, for each of its five ways to end. It stops on request, aborts when a worker failed, finishes when all succeeded and the file exists, and in the first two cases, as when the file is gone, every used slot has been told to stop; it saves exactly in every twentieth round that gets that far; the local path changes only in the round that finishes. |
| TaskSafety.TablesStayConsistent | web_api.c:1402-1461 | Over all interleavings without a restart, from tables with no ING row: a row marked ING is the controller's current one, and DOWN never holds two rows for one (dir, path). |
| TaskSafety.OnlyCurrentIngKeptIff | web_api.c:1402-1520 | One step keeps every ING row the current task if and only if it is not a restart that finds a row ING. |
| TaskSafety.OnlyCurrentIngIff | web_api.c:1402-1520 | Over whole runs: in every state on the way only the current task is ING, if and only if every restart happens while no row is ING. |
| TaskSafety.RestartLeavesOrphan | web_api.c:1417-1450 | With a restart the first half fails even when each select takes the first row in the order of ids: the user starts a suspended earlier row while a later one is downloaded, the process restarts, and the later row stays ING while the earlier one is the current task. |
| TaskSafety.OrphanStaysIff | web_api.c:1417-1420 | A step leaves an orphan an orphan if and only if it neither picks it, nor starts, pauses or deletes its path, nor pauses everything. |
| TaskSafety.SuspendSticks | web_api.c:1483-1520 | A suspended row stays suspended, or leaves, under every step except the user's own start; it survives the write-back of a failed download with its path. |
| TaskSafety.SuspendSticksOverRuns | web_api.c:1509-1517 | The same over whole runs without such a start. |
| TaskSafety.FailureLeaves | web_api.c:1509-1517 | The three statuses a failed download can leave, each with its exact condition. |
| TaskSafety.ExhaustedComesLast | web_api.c:1417-1432 | A row that is not suspended and whose attempts are used up is picked again exactly when no row waits or is in progress. |
| TaskSafety.FailedSticks | web_api.c:1426-1461 | A failed row that stays in the table stays failed, except through its own pick or the user's start, pause, or start or pause of everything. |
| TaskSafety.CommandsAre | http.c:1588-1690 | What start, pause, start all and pause all do to each row, by its path and status; nothing else changes. |
| TaskSafety.DeletedNeverInserted | web_api.c:1314-1323 | Once a path is in DETABLE it stays there and no step inserts it into DOWN. |
| TaskSafety.DeletedStaysAway | web_api.c:1312-1360 | A path in DETABLE and out of DOWN stays out over every run. |
| TaskSafety.GoneStaysGone | web_api.c:1332-1337 | A row id that left DOWN never comes back. |
| TaskSafety.ListedAfterIff | web_api.c:1312-1360 | After a step a path is in DOWN if and only if the step listed it and it is not in DETABLE, or it was there and the step did not take its row away. |
| TaskSafety.ListedAtEndIff | web_api.c:1312-1360 | The same over whole runs: listed at the end if and only if it was there and never removed, or was listed again and not removed after that. |
| TaskSafety.MarkedIsGoneIff | web_api.c:3719-3758 | Over every run between the two critical sections of a delete: afterwards the path is in DETABLE, and it is still in DOWN if and only if a listing in between put it back and nothing removed it again; without such a listing it is out. |
| TaskSafety.MarkedIsGoneIffNotListed | web_api.c:3719-3758 | With neither a write-back nor a second delete in between: it is still in DOWN if and only if some listing in between found its path not in DETABLE. |
| TaskSafety.UndisturbedDeleteIsFinal | web_api.c:3708-3758 | A delete without such a listing is final: the path is out of DOWN in every later state. |
| TaskSafety.ListingBetweenHalvesReinserts | web_api.c:3719-3758 | A listing between the two critical sections does put the path back, next to its DETABLE entry. |
| TaskSafety.RowLeavesOnlyIff | web_api.c:1477-1507 | A row leaves DOWN if and only if its own download completed or was gone from the server, it was marked MYDELETE at write-back, or the user deleted its path. |
| TaskTables.Tables.GetDownloadTask | web_api.c:1402-1461 | Picks a row in progress or waiting, else a failed one, marks it ING and hands out its former state, with no other change; picks nothing only when no row is in progress, waiting or failed. |
| TaskTables.Tables.SetDownloadTask | web_api.c:1463-1537 | The write-back is the scheduler's WriteBack step. A finished download, one that is gone and a row to be deleted leave the table; a failed one is suspended exactly if it was, is failed exactly if it was neither suspended nor to be reloaded and its attempts are used up or it was picked as failed, and waits otherwise; the rest of the row is the controller's copy, and no other row changes. |
| TaskTables.Tables.UpdateDownTable | web_api.c:1301-1360 | Recording a listed file is the List step: nothing for deleted paths, one waiting row with a fresh id for new ones, and size and checksum only for a file whose checksum changed. |
| TaskTables.Tables.DeletePath | web_api.c:3719-3725 | After the first critical section of a delete no row has that path; every other row, and nothing else, is still there unchanged, so that DETABLE does not protect the path yet. |
| TaskTables.Tables.RememberDeleted | web_api.c:3737-3758 | The second puts the path into DETABLE once. |
| TaskTables.Tables.UpdateDeletedb | web_api.c:3708-3758 | Both critical sections with nothing in between: the path is out of DOWN, in DETABLE, and out of DOWN in every later state. |
| JsonRoundTrip.ParseUndoesPrint | pcs/cJSON.c:325-546 | Parsing the formatted or unformatted print of any tree with 32-bit integers and NUL-free strings gives back the tree and consumes the whole text (sections 2 and 7 of RFC 8259). |
| JsonRoundTrip.ParsePrintedStr | pcs/cJSON.c:155-250 | A printed string is read back exactly, escapes and \u00XX included, anywhere in a text. |
| JsonEscapes.StringReads | pcs/cJSON.c:155-214 | Every spelling of a string is read as the bytes it stands for, anywhere in a text: any mix of plain bytes, short escapes, \u escapes with digits of either case, and surrogate pairs (section 7 of RFC 8259). |
| JsonEscapes.ScalarReads | pcs/cJSON.c:182-203 | The \u escape of a code point other than 0, or the pair of escapes above 0xFFFF, is read as the UTF-8 of that code point. |
| JsonEscapes.OtherCodesWriteNothing | pcs/cJSON.c:184-193 | Every other \u, malformed, 0 or a lone half of a pair, writes nothing, and how many bytes it takes. |
| JsonEscapes.HexReads | pcs/cJSON.c:140-151 | A value other than 0 is read from four bytes if and only if they are hexadecimal digits that spell it, the most significant one first. |
| JsonEscapes.ShortEscapes | pcs/cJSON.c:174-181 | The five short escapes, and that every other byte stands for itself. |
| JsonEscapes.MeasureSteps | pcs/cJSON.c:164-164 | The first pass counts each byte and each escape once, and where it stops. |
| JsonEscapes.CharsSteps | pcs/cJSON.c:169-213 | The second pass, byte by byte, with its stops. |
| JsonEscapes.StringBegins | pcs/cJSON.c:160-164 | A literal begins with either quote, ends with the same one, and is an overrun when the first pass is. |
| JsonRoundTrip.ParsePrintedNum | pcs/cJSON.c:96-138 | When the byte after it cannot continue a number, a printed integer is read back exactly. |
| JsonNumbers.NumberReads | pcs/cJSON.c:96-115 | Every spelling of a number of any size, with sign, fraction and exponent, is read as its digits and its power of ten (section 6 of RFC 8259). |
| JsonGrammar.ParsesIff | pcs/cJSON.c:302-479 | A text is parsed as a tree if and only if it begins with a gap and a value of the grammar that is this tree: words, strings, numbers, elements and members with their separators, and gaps of blanks and comments around each. |
| JsonGrammar.ReadsIff | pcs/cJSON.c:302-478 | The same at every position of a text, with the position where the value ends. |
| JsonGrammar.GapIsSkipped | pcs/cJSON.c:263-299 | Every mix of blanks, control characters and comments before a token is skipped. |
| JsonGrammar.SkippedIsGap | pcs/cJSON.c:263-299 | Nothing else is skipped before the end of the text. |
| JsonBuffer.MeasureSufficesIff | pcs/cJSON.c:164-166 | The bytes counted by the first pass over a string literal are enough for what the second pass writes, whatever text follows, if and only if the second pass reads the literal without an escape that reaches over its closing quote. |
| JsonBuffer.LiteralFits | pcs/cJSON.c:164-206 | Inside any text: a literal that the second pass reads without reaching over the end found by the first one is read, and written within the measured bytes. |
| JsonPrinter.PrintStringPtr | pcs/cJSON.c:217-250 | The measuring pass counts exactly the bytes the rendering pass writes, and the result is the escaped string. |
| JsonPrinter.MeasureIsExact | pcs/cJSON.c:222-246 | The bytes counted for one character are the bytes written for it. |
| JsonPrinter.PrintNumber | pcs/cJSON.c:118-138 | A 32-bit integer fits its 21 bytes and is printed in decimal. |
| JsonPrinter.MeasuredItemsBound | pcs/cJSON.c:409-440 | The length measured for an array's elements bounds everything written for them, at every depth. |
| JsonPrinter.MeasuredMembersBound | pcs/cJSON.c:507-544 | The same for an object's members. |
| JsonPrinter.PrintArray | pcs/cJSON.c:387-442 | Both passes of array printing: every write stays in the measured buffer and the text is the array's print. |
| JsonPrinter.PrintObject | pcs/cJSON.c:481-546 | The same for objects, the empty one with its own buffer. |
| JsonPrinter.PrintJson | pcs/cJSON.c:341-356 | Printing writes the specified text at every depth. |
| JsonLayout.ArrayLayout | pcs/cJSON.c:387-442 | The closed form of a printed array: elements between brackets, with a comma between two, and a blank after it when formatted. |
| JsonLayout.ObjectLayout | pcs/cJSON.c:481-546 | The closed form of a printed object: formatted, each member on a line of its own, one tab deeper than the object, with a tab after the colon. |
| JsonLayout.SmallLayouts | pcs/cJSON.c:341-500 | The three words, and the empty object with its line break. |
| JsonLayout.NumberLayout | pcs/cJSON.c:118-138 | A printed integer is a minus sign if it is negative and its decimal digits without leading zeros. |
| JsonLayout.StringLayout | pcs/cJSON.c:217-250 | A printed string is its bytes between quotes, each spelt in its turn. |
| JsonLayout.EscapeIs | pcs/cJSON.c:230-246 | The spelling of each byte: seven short escapes, \u00 with two lower-case digits for the other bytes below 32, and the byte itself. |
| JsonParser.SkipAll | pcs/cJSON.c:263-299 | Skipping whitespace and both kinds of comment ends where the reference says, and terminates. |
| JsonParser.MeasureString | pcs/cJSON.c:164-164 | The measuring loop refines the first pass, and tells when it skips the terminator. |
| JsonParser.ParseString | pcs/cJSON.c:155-214 | Both byte loops, with escapes and surrogate pairs, read the reference string and tell when they would pass the end of the text; what is written fits the measured buffer under the condition of JsonBuffer.LiteralFits. |
| JsonParser.ParseNumber | pcs/cJSON.c:96-115 | The digit loops give mantissa, scale and exponent of the reference number. |
| JsonParser.ParseArrayText | pcs/cJSON.c:359-384 | The comma loop reads the reference array or fails with it. |
| JsonParser.ParseObjectText | pcs/cJSON.c:445-478 | The comma loop over name and value pairs reads the reference object or fails with it. |
| JsonParser.ParseText | pcs/cJSON.c:302-318 | The whole parser refines the reference reader used in the round trip. |
| JsonMinify.MinifyInPlace | pcs/cJSON.c:620-635 | The in-place pass leaves the minified text, its write position never overtaking its read position, and gives up exactly where the original would run past the terminator. |
| JsonMinify.MinifyUndoesFormat | pcs/cJSON.c:620-635 | Minifying the formatted print of any tree gives exactly its unformatted print. |
| JsonMinifyLaws.BlankVanishes | pcs/cJSON.c:625-628 | In any text, blanks, tabs and both ends of line outside literals vanish. |
| JsonMinifyLaws.LineCommentVanishes | pcs/cJSON.c:629-629 | A comment up to the end of its line vanishes, at the end of the text too. |
| JsonMinifyLaws.BlockCommentVanishes | pcs/cJSON.c:630-630 | A block comment vanishes; it ends with the first star and slash at or after its own star. |
| JsonMinifyLaws.OpenCommentFails | pcs/cJSON.c:630-630 | A block comment without an end takes the original past the terminator. |
| JsonMinifyLaws.QuoteSwitches | pcs/cJSON.c:631-631 | A quote opens a literal and closes it again, and stays. |
| JsonMinifyLaws.InsideStays | pcs/cJSON.c:631-631 | Inside a literal every byte stays, a backslash protects the next byte, and a literal without an end fails. |
| JsonMinifyLaws.ByteStays | pcs/cJSON.c:632-632 | Every other byte stays. |
| JsonMinify.PrintIsCString | pcs/cJSON.c:325-356 | No print of any tree contains a NUL, not even of strings that do. |
| JsonMinify.PrintAndMinify | pcs/cJSON.c:620-635 | Printing any tree with formatting and minifying that text in its own buffer leaves its unformatted print and a terminator. |
| JsonChildren.Parent.GetArraySize | pcs/cJSON.c:549-549 | Walking the children counts them. |
| JsonChildren.Parent.GetArrayItem | pcs/cJSON.c:550-550 | The item at the index, the first one for a negative index, null past the end. |
| JsonChildren.Parent.GetObjectItem | pcs/cJSON.c:551-551 | The first child whose name agrees but for case, null when there is none. |
| JsonChildren.StrCaseEq | pcs/cJSON.c:39-44 | The comparing loop finds equality exactly when the texts agree but for case. |
| JsonChildren.SameNameIff | pcs/cJSON.c:39-44 | Names agree exactly when they do byte by byte, up to the case of letters. |
| JsonChildren.Parent.AddItemToArray | pcs/cJSON.c:554-559 | Appends by walking to the last child; links stay consistent, a null item changes nothing. |
| JsonChildren.Parent.DetachItemFromArray | pcs/cJSON.c:564-565 | Takes exactly the indexed child out, clears its links and returns it, or changes nothing. |
| JsonChildren.Parent.ReplaceItemInArray | pcs/cJSON.c:571-573 | The new item takes exactly the indexed child's place, or nothing changes. |
| YunData.GetYunData | pcs/pcs.c:253-326 | The scanner with its 32-entry stack refines the reference search, including the cases where the stack or the key would overrun. |
| YunData.ScanBraces | pcs/pcs.c:281-315 | One scan over the array stack ends where the reference scan ends, with the same stack. |
| YunLaws.CandidateIff | pcs/pcs.c:268-280 | A candidate is the key, an equals sign and an opening brace, with nothing but spaces in between. |
| YunLaws.KeyMatchIff | pcs/pcs.c:269-269 | Where the key stands; at the end of the page a beginning of it is enough. |
| YunLaws.StepIs | pcs/pcs.c:283-313 | The stack on one byte, on any page: what is pushed, popped and ignored, and when the 32 entries are used up. |
| YunLaws.ScanSteps | pcs/pcs.c:282-318 | The scan begins with the brace and goes on until the stack is empty. |
| YunLaws.SearchSteps | pcs/pcs.c:267-328 | What each candidate leads to: the result, an overrun, or a further search, with the stack as the page left it. |
| YunLaws.FoundMeans | pcs/pcs.c:319-325 | On any page, whatever is returned begins with the brace of a candidate and ends where the scan from there has closed everything. |
| YunData.ExtractsObjectIff | pcs/pcs.c:253-326 | On a page whose first `key = {` opens a printed object the scanner returns exactly the object's text when its scanner depth is at most 31, whatever its strings contain, and overruns its stack otherwise. |
| YunData.ExtractThenParse | pcs/pcs.c:253-326 | Parsing what it returned gives back the object. |
| DvBytes.XorRoundTrip | pcs/pcs_passport_dv.c:238-256 | The chained XOR decoding undoes the encoding for every buffer. |
| DvBytes.EncodeXor | pcs/pcs_passport_dv.c:238-246 | The in-place forward loop writes the chained encoding and nothing else. |
| DvBytes.DecodeXor | pcs/pcs_passport_dv.c:248-256 | The in-place backward loop writes the decoding; with length 0 it changes the one byte before the buffer, and only that. |
| DvFormat.XorDiffers | pcs/pcs_passport_dv.c:243-243 | Each bit of the combined byte is set exactly when the two bytes differ in it. |
| DvFormat.EncodedBits | pcs/pcs_passport_dv.c:238-246 | Each bit of an encoded buffer says whether the byte and the encoded one before it differ there; the first byte is compared with 0xcb. |
| DvBytes.CalcCs | pcs/pcs_passport_dv.c:362-370 | The checksum loop is 0x21 plus all bytes modulo 256. |
| DvFormat.ChecksumSteps | pcs/pcs_passport_dv.c:362-370 | The checksum of nothing is 0x21, and every byte is added to it modulo 256. |
| DvPacket.ChecksumSeesOneByte | pcs/pcs_passport_dv.c:362-370 | Changing any one byte changes the checksum. |
| DvBytes.Base64RoundTrip | pcs/pcs_passport_dv.c:113-236 | Decoding undoes encoding for every byte string and every length modulo 3. |
| DvBytes.PrefixedRoundTrip | pcs/pcs_passport_dv.c:113-236 | `passport_debase64` of `passport_base64` is "010" followed by the input. |
| DvBytes.PassportBase64 | pcs/pcs_passport_dv.c:113-167 | The encoding loops fill exactly the buffer of the computed length. |
| DvBytes.PassportDebase64 | pcs/pcs_passport_dv.c:169-236 | The decoding loops give the decoded bytes on the reported length, with one byte of slack behind it. |
| DvFormat.Alphabet | pcs/pcs_passport_dv.c:115-185 | The alphabet of the encoder, and 0 for every other byte in the table of the decoder (section 5 of RFC 4648). |
| DvFormat.EncodedGroup | pcs/pcs_passport_dv.c:141-150 | Four letters carry the 24 bits of three bytes, the highest first. |
| DvFormat.EncodedTails | pcs/pcs_passport_dv.c:152-163 | A partial group carries its bits in as many letters as they need, filled up with zeros. |
| DvFormat.DecodedGroup | pcs/pcs_passport_dv.c:209-218 | The decoder joins the six bits of each letter, for any letters. |
| DvFormat.DecodedTails | pcs/pcs_passport_dv.c:220-233 | It keeps the whole bytes of a partial group, one letter alone included. |
| DvBytes.Read16 | pcs/pcs_passport_dv.c:276-331 | Reading a two-byte field gives the written value modulo 65536. |
| DvBytes.Read32 | pcs/pcs_passport_dv.c:267-319 | Reading a four-byte field undoes writing it for every 32-bit value, negative ones included. |
| DvBytes.Read64 | pcs/pcs_passport_dv.c:258-307 | The same for eight bytes. |
| DvFormat.FieldsAreBigEndian | pcs/pcs_passport_dv.c:258-283 | Fields of two, four and eight bytes are written with the most significant byte first, negative numbers in two's complement. |
| DvFormat.ReadsBigEndian | pcs/pcs_passport_dv.c:297-331 | The readers take the most significant byte first. |
| DvItems.ItemRoundTrip | pcs/pcs_passport_dv.c:1686-1727 | For all fifteen kinds of item with in-range fields the item decoder undoes the builder. |
| DvFormat.MagicNumbers | pcs/pcs_passport_dv.c:41-56 | The code of each kind of event. |
| DvFormat.FixedItems | pcs/pcs_passport_dv.c:1240-1340 | Events of fixed size: when their bytes are accepted, and where their fields lie. |
| DvFormat.StringItems | pcs/pcs_passport_dv.c:1539-1684 | Events with strings: lengths, positions, and when they are rejected. |
| DvFormat.InputItems | pcs/pcs_passport_dv.c:1384-1537 | Events of mouse and keyboard, the rectangle included. |
| DvFormat.FillerBytes | pcs/pcs_passport_dv.c:497-526 | The bytes that builders write and no reader reads. |
| DvItems.MouseDownRoundTrip | pcs/pcs_passport_dv.c:754-808 | Mouse-down events with and without a rectangle are read back field by field. |
| DvItems.KeyDownRoundTrip | pcs/pcs_passport_dv.c:841-880 | Key events are read back field by field. |
| DvPacket.StreamDecodes | pcs/pcs_passport_dv.c:1767-1796 | The stream of encoded items decodes to the items in order. |
| DvFormat.EncodedItem | pcs/pcs_passport_dv.c:440-460 | One event in the stream: its code, its length, and its payload, encoded. |
| DvFormat.StreamAndDequeOrder | pcs/pcs_passport_dv.c:420-438 | The stream from its first event on, and the deque from its last push on. |
| DvFormat.HeaderBytes | pcs/pcs_passport_dv.c:462-480 | The sixteen bytes of a header. |
| DvPacket.StreamSizeIs | pcs/pcs_passport_dv.c:440-460 | The length of the built stream is the sum over the items of their field sizes plus four, as the length field of the header needs it. |
| DvPacket.PacketHead | pcs/pcs_passport_dv.c:1729-1765 | The header of a built packet is accepted: magic numbers, payload length, checksum, item count. |
| DvFormat.HeadAcceptedIff | pcs/pcs_passport_dv.c:1729-1765 | The head of a packet is accepted if and only if the three letters, the magic numbers, the length and the checksum are right; its number of events. |
| DvFormat.CorruptedStreamRejected | pcs/pcs_passport_dv.c:1756-1757 | A packet in which one byte of the stream was changed is rejected. |
| DvPacket.EmptyPacketRejected | pcs/pcs_passport_dv.c:462-480 | A packet to which nothing was pushed is rejected, because its `av` field is still zero. |
| DvPacket.PacketRoundTrip | pcs/pcs_passport_dv.c:420-480 | For every sequence of in-range items and coin flips with a payload below 65536 bytes, decoding the packet's text gives the items in deque order, or the error when there are none. |
| DvPacket.DequeHoldsAll | pcs/pcs_passport_dv.c:420-438 | The deque holds every pushed item with its multiplicity. |
| DvPackage.WriteI2 | pcs/pcs_passport_dv.c:276-283 | The byte loop overwrites two bytes, high byte first, and leaves the rest. |
| DvPackage.Package.constructor | pcs/pcs_passport_dv.c:462-480 | A new package holds the sixteen header bytes and no item. |
| DvPackage.Package.PkgCs | pcs/pcs_passport_dv.c:372-376 | The checksum field is brought up to date with the item stream; the other fields stay. |
| DvPackage.Package.PkgAv | pcs/pcs_passport_dv.c:378-381 | Only the `av` field changes. |
| DvPackage.Package.PkgBl | pcs/pcs_passport_dv.c:383-387 | Only the payload length changes. |
| DvPackage.Package.PkgP | pcs/pcs_passport_dv.c:389-393 | Only the item count changes. |
| DvPackage.Package.PkgGap | pcs/pcs_passport_dv.c:420-438 | After a push at either end the package holds exactly the extended list of items, header fields included. |
| DvPackage.Package.PkgSetDv | pcs/pcs_passport_dv.c:440-460 | The same for an item as its builder wrote it. |
| DvPackage.EncodeBlock | pcs/pcs_passport_dv.c:445-455 | Magic number, payload length and the payload encoded in place. |
| DvPackage.BuildDv | pcs/pcs_passport_dv.c:1086-1130 | A whole build gives the text of the packet of the deque of its pushes. |
| DvPackage.PrintDvHead | pcs/pcs_passport_dv.c:1729-1765 | The header reader accepts and rejects exactly as the reference decoder. |
| DvPackage.PrintDvItem | pcs/pcs_passport_dv.c:1772-1787 | One round decodes the next payload in place, leaves what follows it alone, and agrees with the reference. |
| DvPackage.PrintDvItems | pcs/pcs_passport_dv.c:1767-1796 | The loop succeeds exactly when the reference decodes as many items as announced. |
| DvPackage.PrintDv | pcs/pcs_passport_dv.c:1798-1821 | The whole reader refines the reference decoder of the round trip. |
| PcsBuffer.Buffer.Enlarge | pcs/pcs_buffer.c:22-40 | Afterwards the wanted bytes fit and the contents are unchanged. |
| PcsBuffer.Buffer.Write | pcs/pcs_buffer.c:42-52 | Appends, keeps `len` below the size, and terminates. |
| PcsBuffer.Buffer.Insert | pcs/pcs_buffer.c:54-73 | Splices at the offset; past the end it leaves the old contents in front and the new bytes at the offset. |
| PathResolve.CombinNetDiskPath | utils.c:407-420 | The in-place normaliser over base and file name gives the text of the stack-based resolution, within a buffer of exactly the allocated size, whenever the resolution has a meaning. |
| PathResolve.Fill | utils.c:314-401 | One pass takes the buffer from a directory to the one the path names, and no write passes the bytes it has room for. |
| PathResolve.FillNames | utils.c:337-393 | The pointer loop enters exactly the names between separators, in order. |
| PathResolve.Leave | utils.c:351-379 | The branch for the parent name drops the last name by scanning back to a slash, and keeps the root. |
| PathResolve.Append | utils.c:380-390 | The branch for a name appends it and a slash. |
| PathResolve.Streq | utils.c:220-262 | With length -1 whole strings are compared; with a length, the prefix of the first string of that length. |
| PathResolve.ResolveNormal | utils.c:314-401 | The result has no empty, "." or ".." names and no separator inside a name. |
| PathResolve.RenderResolves | utils.c:407-420 | The text of a result resolves to it again, so normalising twice is normalising once. |
| PathResolve.AbsoluteResolves | utils.c:321-330 | Every base that starts with a separator resolves, with any file name, and to an absolute path. |
| PathResolve.JoinThenResolve | utils.c:403-420 | Resolving a relative name after a base is resolving the two joined by a slash; an absolute name forgets the base. |
| PathLaws.ResolveName | utils.c:344-379 | One name, seen from a directory: an empty name and "." stay, ".." drops the last name, stays at the root and has no meaning at the top of a relative directory, every other name is appended. |
| PathLaws.ResolveLonger | utils.c:336-390 | One more name after a slash or a backslash is resolved from what the path before it names. |
| PathLaws.ResolveFromRoot | utils.c:321-329 | A leading separator starts from the root. |
| PathLaws.DownAndUp | utils.c:351-379 | A path, an ordinary name and ".." resolve to what the path resolves to. |
| PathLaws.RenderedFirst | utils.c:395-400 | The text of the root, of nothing, and of one name. |
| PathLaws.RenderedMore | utils.c:380-400 | Every further name follows a slash. |
| Utf8Strings.CharRoundTrip | pcs/utf8.c:205-231 | An encoded code point announces its length, only its first byte starts a character, and it decodes to the code point (section 3 of RFC 3629). |
| Utf8Laws.EncodedBytes | pcs/utf8.c:138-178 | The shortest form: lead byte, continuation bytes and the bits they hold, for every code point (section 3 of RFC 3629). |
| Utf8Laws.TrailingCounts | pcs/utf8.c:36-45 | The table of lengths: one more trailing byte for every further leading one bit. |
| Utf8Laws.MarkerSums | pcs/utf8.c:31-34 | The table of offsets is what the marker bits add up to, modulo 2^32. |
| Utf8Laws.CutCharacterEnds | pcs/utf8.c:63-94 | A text that ends inside a character is decoded up to there. |
| Utf8Laws.LongLeadFills | pcs/utf8.c:70-90 | On a lead byte above 0xF7 the decoder makes no step and fills all the room with one value. |
| Utf8Strings.UcsRoundTrip | pcs/utf8.c:63-94 | Decoding an encoding gives back the code points below 0x110000, as many as there is room for. |
| Utf8Strings.U8ToUtf8 | pcs/utf8.c:138-177 | Writes the longest prefix of whole characters that fits, and the terminator only when everything fits with a byte to spare. |
| Utf8Strings.U8Size | pcs/utf8.c:180-203 | Exactly the number of bytes of the encoding. |
| Utf8Strings.U8WcToUtf8 | pcs/utf8.c:205-231 | The bytes of one character and their number; values above the range have none. |
| Utf8Strings.U8ToUcs | pcs/utf8.c:63-94 | The conversion loop refines the reference decoder on arbitrary bytes, for counted and terminated sources. |
| Utf8Walk.CountUndoesWalk | pcs/utf8.c:234-257 | `u8_charnum` undoes `u8_offset` on every string, valid or not, up to its last character. |
| Utf8Walk.WalkUndoesCount | pcs/utf8.c:234-257 | `u8_offset` of `u8_charnum` is the first character start at or after the offset, or the end. |
| Utf8Walk.WalkText | pcs/utf8.c:234-244 | On encoded text walking n characters lands on the start of the n-th. |
| Utf8Walk.DecUndoesInc | pcs/utf8.c:287-297 | `u8_dec` undoes `u8_inc` between characters of encoded text. |
| Utf8Walk.NextCharOfText | pcs/utf8.c:272-285 | On encoded text `u8_nextchar` returns the next code point and moves past it. |
| Utf8Walk.U8NextChar | pcs/utf8.c:272-285 | The 32-bit accumulating loop stops at the next start of a character and returns its value. |
| Utf8Walk.U8Offset | pcs/utf8.c:234-244 | The loop walks the given number of characters or to the end, never past the terminator. |
| Utf8Walk.U8CharNum | pcs/utf8.c:247-257 | The loop counts the characters that start before the offset. |
| Utf8Walk.U8Inc | pcs/utf8.c:287-291 | Moves to the next start of a character, at most four bytes on. |
| Utf8Walk.U8Dec | pcs/utf8.c:293-297 | Moves back to the start of the character before, at most four bytes. |
| FileList.List.Add | pcs/pcs_fileinfo.c:129-142 | Appends the item; links, head, tail and count stay consistent. |
| FileList.List.Remove | pcs/pcs_fileinfo.c:144-162 | Takes exactly this item out; an iterator on it steps back, and what it has still to visit loses the item and nothing else. |
| FileList.List.Combin | pcs/pcs_fileinfo.c:164-182 | Concatenates the two lists and empties the source. |
| FileList.Iterater.constructor | pcs/pcs_fileinfo.c:186-191 | A new iterator has the whole list to visit, in its direction. |
| FileList.Iterater.Next | pcs/pcs_fileinfo.c:193-223 | Succeeds exactly when something is left to visit, and takes the first of it. |
| LinkedNodes.RestWithout | pcs/pcs_fileinfo.c:154-159 | Taking an item out of the list takes it out of the items still to visit, for every position of the iterator and both directions. |
| FileList.Iterate | pcs/pcs_fileinfo.c:144-222 | For any mix of steps and removals of the current item, forward or inverted: the visited items are the first ones of the original order, each once; the items removed, and the order of those that stay, are what the mix does to that order, a removal taking the item last stepped on that is still there. |
| WorkerPool.HandledExactlyOnce | main.c:51-108 | In every interleaving of dispatcher and workers an accepted request is started at most once and its socket closed at most once and not before; with nothing pending and both slots idle each happened exactly once. |
| WorkerPool.LogTellsTheTruth | main.c:61-67 | A worker handles the contents of the request it was given, and closes that request's socket after having started it itself. |
| WorkerPool.BusySlotStays | main.c:80-95 | A busy slot is not rewritten until its own worker has finished. |
| WorkerPool.StepKeeps | main.c:51-108 | Each critical section keeps the balance of pending, queued, running and closed requests. |
| WorkerPool.WorkGoesDown | main.c:51-108 | Every effective step other than a new request reduces the outstanding work by one. |
| WorkerPool.SomeStepWorks | main.c:51-108 | While work is outstanding some step reduces it, so the pool never gets stuck. |
| WorkerPool.NoWorkMeansDone | main.c:51-108 | With no outstanding work every accepted request was started once and its socket closed once. |
| WorkerPool.FittingRequestsIntact | main.c:85-93 | Requests that fit the slot buffers arrive unchanged; longer parts are cut to 4095 and 1023 bytes. |
| WorkerPool.Pool.Enter | main.c:75-77 | A request without a socket or a part is refused with -1 and changes nothing; every other one is accepted. |
| WorkerPool.Pool.AllocPass | main.c:78-105 | One pass fills the first idle slot, and only that, with the truncated copies, or reports that both are busy and changes nothing. |
| WorkerPool.Pool.TakeTask | main.c:56-60 | A worker proceeds exactly when its slot is busy. |
| WorkerPool.Pool.FinishTask | main.c:64-67 | The socket of the slot is closed and the slot becomes idle, in one critical section. |
| PercentCoding.RoundTripIff | common.c:566-621 | Decoding undoes encoding if and only if the text has no byte below 16, which the encoder writes with a single digit (section 2.1 of RFC 3986). |
| PercentCoding.EncodesTo | common.c:599-621 | Letters, digits and four marks stay; every other byte becomes a percent sign and its value in lower case, with a single digit below 16. |
| PercentCoding.DecodesTo | common.c:566-597 | A percent sign with two digits of either case is the byte they spell, a plus is a blank, and every other byte stays. |
| PercentCoding.LessRoomCuts | common.c:566-597 | With less room decoding stops earlier, with the same beginning. |
| PercentCoding.StrDecodeUrl | common.c:566-597 | The decoder writes the reference result and its terminator, whether source and destination are one array or two. |
| PercentCoding.StrEncodeUrl | common.c:599-621 | The encoder writes the escapes in order within its 4096 bytes. |

## Left out

- DownloadSafety.CompletedDownloadIsRemote: holds under the save guard only; DownloadLoss.SaveIsSafeIff shows that the guard is exact for a single save, and DownloadRuns.CorruptibleIff for which files it can be missed.
- DownloadSafety.NeverAbsentIsFound: in larger files a transfer that begins at an offset congruent to -2 modulo 2^32 stops with the code for not found although the server never said so.
- DownloadController.MultiDownload.InitInfoFromFile: the original looks at four saved segments even when fewer were saved, which reads behind its allocation; the model looks at the saved ones, of which there are as many as the trailer says.
- DownloadController.MultiDownload.ChkFinish: truncating and renaming succeed whenever the temporary file exists; the time stamp in the name beside an existing file is not modelled.
- DownloadController.MultiDownload.WriteInterruptInfo: a trailer is written as a whole or not at all, where the original writes a header and then the segments; the wait of about five seconds for the workers is not modelled, and that they are at rest before the table is rebuilt is an assumption of the protocol.
- DownloadController.MultiDownload.Poll: the round on its own, nothing interleaved; interleavings are those of the protocol.
- Free space, the `double` progress fields, and the speed of a download: not modelled; the first save and a save after an interrupt may fail as a whole, a periodic save succeeds.
- TaskTables.Tables.SetDownloadTask: SQL statements succeed; the DONE and SERVER tables, the removal of temporary files and the shared progress record are not modelled.
- Retry counts, waits and other liveness of downloads: only safety is proved.
- JsonParser.ParseText: trees are values, so the linking of heap nodes while parsing and memory failures are not captured; a failed child, on which the original goes on to skip a null pointer, counts as a syntax error.
- JsonParser.ParseString: a literal that makes either pass read past the terminator is the outcome Overrun; when the second pass runs past the measured buffer inside the text, the model goes on, and only JsonBuffer.MeasureSufficesIff says when that can happen.
- JsonMinify.MinifyInPlace: an unfinished string or block comment, on which the original runs past the terminator, is the outcome None.
- JsonChildren.Parent.AddItemToArray: one level of children, an item belongs to one parent and has no links left over; renaming, reference items, duplication and deletion of trees are not modelled.
- JsonPrinter.PrintNumber: integers of 32 bits only; numbers are read as mantissa and decimal exponent instead of `double`.
- YunData.GetYunData: a stack overrun, or a page that ends inside the key, is the outcome Undefined.
- DvBytes.PassportDebase64: the array has one byte more than the original allocates, which the last group of a partial text needs.
- DvItems.ItemRoundTrip: the builders' straight-line writes into a local buffer are the function Payload; what an item decoder prints is the item it returns.
- The limits on the number of recorded events, the random imitation of a user, page tokens and the unused `pkg_ppk`.
- PathResolve.CombinNetDiskPath: asks that the resolution has a meaning, which fails only when a relative path leaves its top; the original then writes before its buffer.
- Utf8Strings.U8ToUcs: a terminated source must not end inside a character, where the original reads past the terminator.
- Utf8Walk.U8NextChar: at most five continuation bytes in a row, the size of the original's table; `u8_strlen`, which reads one byte past the terminator, and the escape routines are left out.
- WorkerPool.Pool.AllocPass: one pass of a loop that waits; that a waiting dispatcher and waiting workers get their turn is left to the scheduler, WorkerPool.SomeStepWorks says that a turn helps.
- PercentCoding.StrEncodeUrl: asks for an encoding of at most 4095 characters, the size of the original's local buffer.
- File size arithmetic of the request builders in `pcs/pcs.c`, the response builders in `http.c` and `xml.c`, the walk over directories in `dir.c`: no hard property.
- Sockets, curl transfers, login and captcha dialogues, sqlite, signals and logging: foreign input and output.
