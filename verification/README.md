# Castor's harness, modelled and verified in Dafny

Castor runs coding agents against a local language-model server. This project models the parts of
its harness that keep state or do arithmetic that is easy to get wrong, and proves what they promise.

- **The session runner** (`Session`, `SessionLaws`, `HistoryLaws`, `Runner`, `LoopDetection`): the turn loop with its
  budget, landing notice, salvage passes, tool execution, ledger and loop breaker. The engine, the
  tool executor, the ledger file, the report file and the action hash are arbitrary functions, so each
  theorem is about every behaviour of all five, failures included. `Session` specifies a run by the
  engine's answers; `Runner` is the loop itself, proved against it; `SessionLaws` is what holds of
  every run, and `HistoryLaws` reads its messages and events off the answers and the tool executor.
- **The streaming pipeline** (`Wire`, `Repetition`, `BreakerLaws`, `Sanitizer`, `SanitizerLaws`,
  `StreamClient`, `StreamLaws`, `Transparency`): the proxy's line machine with its repetition breaker,
  the client's line machine with its tool-call assembly, and their composition. `BreakerLaws` and
  `StreamLaws` say in plain characters, numbers and JSON keys what trips the one and what the other sums
  up. The JSON parser and printer and the incremental
  text decoder are arbitrary functions.
- **The evolution lineage and its calendar** (`Calendar`, `Timestamps`, `Lineage`, `Evo`): the day
  arithmetic behind the ISO-8601 printer and parser, the lineage graph with its loader and ancestor
  walk, commit runs, and the stall watchdog.
- **Slots, locks and task records** (`Slots`, `Locks`, `Registry`, `RegistryLaws`, `RecordLaws`): shared files as
  maps, processes as a set of the living, time as a number that does not decrease; the theorems are about
  every run of the operations, with process death and failing writes among the steps.
- **The retention planner and the path folder** (`Pruner`, `PosixPath`, `PathLaws`).
- `Text` holds the parts of Rust's standard library that several of these lean on.

Where the code and its own comments disagree the model follows the code:

- `extend_budget` reports a new budget but saves the old record: on no run does it change a file
  (`RegistryLaws.ExtensionsNeverStored`, at an input `RegistryLaws.ExtensionLost`).
- `update` can take a task out of a terminal status, and the worker's first update does, over the
  registry the worker opens (`RegistryLaws.WorkerResurrectsExactly`, at an input
  `RegistryLaws.CancelledTaskStarts`), against "exactly one terminal transition ever".
- A new process over old mirror files numbers its tasks from one again and takes over old ones
  (`RegistryLaws.CreateOverwritesExactly`), so that an old task can end twice in one run
  (`RegistryLaws.OldTaskEndsTwice`).
- A second release of a slot is not always the documented no-op (`Slots.DoubleReleaseExactly`, at inputs
  `Slots.DoubleReleaseShows`).
- The wait queue is first in, first out exactly among waiters that do not leave while queued
  (`Slots.FirstInFirstOut`); one that times out queues again under a new id, behind the others
  (`Slots.TimeoutLosesPlace`).
- Lock leases of different lengths do not exclude each other (`Locks.GrantStandsExactly`, at an input
  `Locks.ShortLeaseTakesOver`).
- An unreadable lock file is reported as an error and never reclaimed (`Locks.StuckExactly`), against
  the comment "stale (or unreadable)".
- The lineage loader accepts cycles of two or more nodes (`Lineage.TwoCycleLoads`); which accepted files
  are acyclic says `Lineage.AcyclicExactly`.
- The repetition detector slices inside characters on text that is not ASCII
  (`Repetition.ScanPanicsExactly`, at inputs `Repetition.ChinesePanics` and
  `SanitizerLaws.ChineseFrameCrashes`).
- Its rolling window is cut by counting bytes and dropping characters: on text that is not ASCII it is
  not the last 1500 of either (`BreakerLaws.CutExactly`, at inputs `BreakerLaws.WideTextIsCut`).
- The printed time stamps neither parse back nor sort once the year has five digits
  (`Timestamps.RoundTripExactly`, `Timestamps.OrderBreaksAt10000`).
- A loop advisory can stand between the tool messages of one turn (`SessionLaws.ContiguousExactly`, at
  an input `SessionLaws.AdvisoryBetweenTools`).
- Without a final newline the proxy shows the client a line it would not have read
  (`Transparency.UnterminatedExactly`, at an input `Transparency.MissingNewlineShows`).
- The count and size gates do not count what earlier gates took, so a plan can go beyond what its limits
  need (`Pruner.PlanOvershootsExactly`, at inputs `Pruner.GatesOvershoot`).
- An operand can resolve differently against a working directory and against its normal form
  (`PosixPath.OperandCwdExactly`, at an input `PosixPath.OperandAgainstDriveCwd`).

## Model

| member | source | states |
|---|---|---|
| `Runner.RunSession` | src/runner/mod.rs:240-596 | every session, whatever the engine, the tools and the files do: it makes at most two calls more than its budget, each call extends the history of all earlier ones, in each history every tool call is answered before the assistant speaks again; every call of every run, failed ones included, is a `HistoryLaws.Transcript`: it opens with the two prompts, repeats all earlier answers, and its n-th tool message has the id of the n-th tool call asked for and the text that the executor's n-th run gave, or `Error: tool '…' failed: …`; a session that succeeds has exactly the specified calls, ledger, text and status and never met the loop breaker's hard stop; a session that fails writes no final event, leaves a beginning of the specified ledger or all of it but the final event, and fails for one of three named reasons |
| `Runner.TakeTurn` | src/runner/mod.rs:266-319 | the head of a turn: the budget notice goes in on the landing turn and on no other, the call sends the specified history, the dispatch event and the assistant message follow; otherwise the error and what was called |
| `Runner.ExecuteTools` | src/runner/mod.rs:497-549 | the tool calls of a turn append exactly the specified messages and events, or stop at the first refused ledger append or the call that met the hard stop |
| `Runner.ExecuteTool` | src/runner/mod.rs:498-548 | one tool call: the tool message, which `HistoryLaws.AdvisoryExactly` spells out, the ledger event, then the loop breaker's verdict decides between going on, an advisory and the hard stop; a failure leaves no more than that event |
| `Runner.ExecuteSalvageTools` | src/runner/mod.rs:348-373 | the tools of a salvage reply all run, numbered on from the main loop's; refused ledger appends only drop their events |
| `Runner.SalvageReply` | src/runner/mod.rs:342-386 | the tools of the salvage reply run and a second call without tools follows; if that call fails the first reply stands |
| `Runner.SalvageCeiling` | src/runner/mod.rs:331-462 | the salvage at the reasoning ceiling cannot fail: one call with tools, one without when the first used tools, a failed second call leaves the first reply, and the text says which of the three outcomes it was |
| `Runner.Land` | src/runner/mod.rs:321-494 | a turn without tool calls ends the run with the specified text, salvage calls and events, or with the engine error or ledger error of its mandatory salvage |
| `Runner.Synthesize` | src/runner/mod.rs:552-575 | a session out of turns makes one closing call without tools and reports its budget as exhausted |
| `Runner.CallsBounded` | src/runner/mod.rs:266-596 | the calls of any run, failed or not, are bounded, grow, stay paired, and tell every tool call's outcome |
| `SessionLaws.HistoryPaired` | src/runner/mod.rs:306-549 | in the history of every main call, between an assistant message and the next stand exactly one tool message for each of its tool calls, with the same ids in order |
| `SessionLaws.PairedTurn` | src/runner/mod.rs:351-373 | appending an assistant message and its answers keeps that pairing, on the salvage path as well |
| `SessionLaws.EveryCallWellFormed` | src/runner/mod.rs:331-562 | the salvage and closing calls keep both the growth and the pairing, and there are at most two of them, more than one only at the ceiling |
| `SessionLaws.MainCallsWellFormed` | src/runner/mod.rs:266-549 | each main call sends a proper extension of what every earlier one sent |
| `SessionLaws.LandingAnnouncedOnce` | src/runner/mod.rs:266-278 | the budget notice is in the history of a call exactly when at most five turns were left at it; it is there once and gives the turns left when it came, five or the whole of a smaller budget |
| `SessionLaws.LoopBreakerHolds` | src/runner/mod.rs:523-547 | a session that succeeded executed no four identical calls in a row in its main loop, and three in a row at most once |
| `SessionLaws.ContiguousExactly` | src/runner/mod.rs:508-541 | the tool messages of a turn follow their assistant message directly if and only if no advisory falls on a call before the turn's last |
| `SessionLaws.AdvisoryInside` | src/runner/mod.rs:497-549 | a turn of three equal calls and a different one: the advisory goes in before the last tool message, and the run goes on |
| `SessionLaws.AdvisoryBetweenTools` | src/runner/mod.rs:497-549 | there is a run whose tool messages do not follow their assistant message directly |
| `SessionLaws.FinalOnceAndLast` | src/runner/mod.rs:580-588 | the ledger of a session that succeeded has exactly one final event, and it is the last |
| `SessionLaws.StatusExactly` | src/runner/mod.rs:250-596 | each of the four statuses, as an exact condition on the last answer, the answer to the salvage and the number of turns; the reasoning ceiling is reported even on the last turn |
| `SessionLaws.StatusMatchesText` | src/runner/mod.rs:250-596 | the status is honest about the text: reasoning ceiling exactly for salvage texts, failed exactly for the failure notice, budget exhausted exactly for a plain text on the last turn; a completed session that ran tools has a non-blank text |
| `HistoryLaws.TurnsTold` | src/runner/mod.rs:255-549 | every main call sends the two prompts, all earlier answers in order, and for the n-th tool call a tool message with its id and the n-th output of the executor, a failure spelled out; the tool calls asked for in the history are the actions of the run |
| `HistoryLaws.EveryCallTold` | src/runner/mod.rs:331-562 | so do the salvage calls and the closing call, the tools that the salvage ran included |
| `HistoryLaws.MainCallsOffer` | src/runner/mod.rs:279-283 | each main call offers the tools and streams, and its answer is the turn's completion |
| `HistoryLaws.EndingCallsAre` | src/runner/mod.rs:321-562 | which calls follow the main turns, as conditions on the last answer: the salvage with tools and its second call without, the second try at an empty final, the closing call; each with its prompt last and its streaming flag |
| `HistoryLaws.TextIs` | src/runner/mod.rs:331-575 | the session's text read off the answers: the reply of a salvage's second call wins over the first when it came, its trimmed text goes into the report, a blank one and a failed one are said to be so |
| `HistoryLaws.LedgerTells` | src/runner/mod.rs:284-526 | the ledger of the main turns: for each turn in order its completion under its number, then for each of its tool calls the id, the name, and an error flag exactly when the output that the model reads begins with `Error:`; nothing else |
| `HistoryLaws.EndingEventsTell` | src/runner/mod.rs:348-575 | the events after them: the salvage's tool results, reported alike, and the text or the error it ended with; the second try at an empty final; the closing completion |
| `HistoryLaws.KeptExactly` | src/runner/mod.rs:355-456 | of the salvage's events exactly those whose append succeeded are in the ledger, in order |
| `HistoryLaws.LedgerIs` | src/runner/mod.rs:580-596 | the ledger of a session that succeeded is these two parts and a final event with the turns, the status and the text that the session reports, over a budget of 80 when none is given |
| `HistoryLaws.VerdictExactly` | src/runner/mod.rs:528-547 | the loop breaker's verdict on an action: nothing unless it and the two before it have one hash, then an advisory the first time that happens and the hard stop after |
| `HistoryLaws.AdvisoryExactly` | src/runner/mod.rs:498-547 | what one tool call appends: the tool message with its id and output, and after it the advisory for its tool exactly when the action is the first that makes three alike |
| `LoopDetection.LoopDetector.Record` | src/runner/loop_detector.rs:43-68 | the windowed, latched detector gives the verdict of the unbounded one over the whole history |
| `LoopDetection.RepeatsInWindow` | src/runner/loop_detector.rs:43-57 | with threshold at most window, the window sees the repetition if and only if the whole history has it |
| `LoopDetection.CountRun` | src/runner/loop_detector.rs:50-57 | the backward scan finds the exact length of the trailing run |
| `LoopDetection.AdvisoryOnceThenStop` | src/runner/loop_detector.rs:58-68 | before the advisory every verdict was Ok, and a hard stop comes only after an advisory |
| `LoopDetection.NeverDetectedMeans` | src/runner/loop_detector.rs:43-68 | a history without a hard stop has no threshold-plus-one equal entries in a row and at most one stretch of threshold |
| `Repetition.RunRefines` | src/proxy/sanitize.rs:72-138 | over any run of chunks with no alarm, the state sums up all text fed, and the next answer is the unbounded detector's |
| `Repetition.StepRefines` | src/proxy/sanitize.rs:72-138 | one chunk: a run alarm at exactly the first character whose run reaches its class limit; else, on ASCII, the shortest unit of 4 to 32 characters, not all code or divider characters, in whose forty copies the whole text ends; else quiet; never a panic |
| `Repetition.RunLengthExact` | src/proxy/sanitize.rs:77-92 | the counted run is the maximal run of equal characters that ends the text |
| `Repetition.TripIsFirst` | src/proxy/sanitize.rs:78-88 | a run is caught at its limit, not beyond |
| `Repetition.RunsIgnoreChunks` | src/proxy/sanitize.rs:77-92 | where a run is caught does not depend on the chunks |
| `Repetition.WindowStep` | src/proxy/sanitize.rs:94-105 | on ASCII text the rolling text is always the last 1500 characters of all that was fed |
| `Repetition.LoopInWindow` | src/proxy/sanitize.rs:30-135 | the window is wide enough: a loop is in it if and only if the whole text ends in one |
| `Repetition.AsciiScan` | src/proxy/sanitize.rs:106-135 | on ASCII text the scan finds the shortest loop if there is one, and never slices inside a character |
| `Repetition.ScanPatterns` | src/proxy/sanitize.rs:106-135 | the scan, for any text, byte widths and panics included |
| `Repetition.ScanPanicsExactly` | src/proxy/sanitize.rs:106-135 | for any text: the scan panics exactly when at some unit length it cuts a character, at the start of the last bytes or, if those are not all code and dividers, at the first copy not like them, and no shorter unit loops |
| `Repetition.StepPanicsExactly` | src/proxy/sanitize.rs:72-138 | so the detector panics on a chunk exactly when no run reaches its limit in it and the window then cuts a character |
| `Repetition.SegmentExact` | src/proxy/sanitize.rs:111-124 | a segment can be sliced exactly when it begins and ends between characters |
| `Repetition.ThreeByteTextPanics` | src/proxy/sanitize.rs:94-112 | on text of three-byte characters the scan panics exactly when the window holds 54 or more |
| `Repetition.ChinesePanics` | src/proxy/sanitize.rs:72-138 | a fresh detector panics on one chunk of 54 times a Chinese character |
| `BreakerLaws.LimitsAre` | src/proxy/sanitize.rs:17-68 | a run may have a thousand code characters, 250 dividers, or a hundred of any other character |
| `BreakerLaws.TripsExactly` | src/proxy/sanitize.rs:77-92 | a text trips the detector exactly when it ends in that many equal characters of their class |
| `BreakerLaws.LoopExactly` | src/proxy/sanitize.rs:106-135 | a loop is a text whose last forty times u characters repeat with period u, for u from 4 to 32, and whose last u are not all code and dividers |
| `BreakerLaws.FindsExactly` | src/proxy/sanitize.rs:106-135 | what the unbounded detector finds is the shortest such loop, and nothing exactly when there is none |
| `BreakerLaws.CutExactly` | src/proxy/sanitize.rs:94-105 | for any text: the rolling text beyond 1500 bytes loses as many characters as it has bytes too many, or none when it has no more characters than that |
| `BreakerLaws.WideTextIsCut` | src/proxy/sanitize.rs:94-105 | so of three-byte characters it keeps all up to 500, fewer the more there are, and all again from 750 on |
| `Repetition.RepetitionDetector.CountRuns` | src/proxy/sanitize.rs:77-92 | the character loop steps the state as specified |
| `Repetition.RepetitionDetector.Feed` | src/proxy/sanitize.rs:72-138 | one feed steps the detector's state as specified |
| `Sanitizer.SseSanitizer.ProcessLine` | src/proxy/sanitize.rs:310-359 | a line is passed on, replaced by its closing block, or lost in the detector's panic; which and by what, `SanitizerLaws.LineIs` says without naming the functions of the code |
| `SanitizerLaws.LineIs` | src/proxy/sanitize.rs:310-359 | one line after any others: it ends the stream with `data: [DONE]` when it is that line, with `event: error` and the frame printed again when it carries an object with "error" and without "choices", with the breaker's frame and `data: [DONE]` when the detector trips on its text; each as an if and only if |
| `SanitizerLaws.ClosedExactly` | src/proxy/sanitize.rs:245-359 | a whole stream stays open exactly when no line ends it; it is closed, with this output and for this reason, exactly when its first line that does not flow is of that kind, and then the output is the lines before it, verbatim, and the block spelled out; it is lost exactly when the detector panics on that line |
| `SanitizerLaws.TokenTextIs` | src/proxy/sanitize.rs:326-334 | the text that the breaker watches: the string at "content" of the first choice's delta, or, when there is none, at "reasoning", or at "reasoning_content"; nothing without a delta |
| `Sanitizer.SseSanitizer.Feed` | src/proxy/sanitize.rs:245-272 | all that was returned so far is the specified output for all bytes fed so far, whatever the chunks; a panic happens exactly when the specification says so |
| `Sanitizer.SseSanitizer.SplitLines` | src/proxy/sanitize.rs:257-272 | the line loop processes exactly the complete lines of the buffer, up to the one that closes the stream |
| `Sanitizer.SseSanitizer.Finish` | src/proxy/sanitize.rs:275-300 | the total output is the specified one for the whole stream |
| `Sanitizer.SanitizeAll` | src/proxy/sanitize.rs:245-300 | chunk independence: for every way to cut a stream into chunks, the concatenated outputs, or the panic, depend on the concatenated bytes only; what they are, `SanitizerLaws.ClosedExactly` and `SanitizerLaws.VerbatimThenTerminal` say |
| `SanitizerLaws.VerbatimThenTerminal` | src/proxy/sanitize.rs:245-359 | a stream that nothing closed is the upstream text with its last newline put in if missing; a closed one is the text of some complete lines, verbatim, then one closing block and nothing else |
| `SanitizerLaws.ClosedForGood` | src/proxy/sanitize.rs:246-248 | whatever the upstream sends after the closing block has no effect |
| `SanitizerLaws.BreakerExactly` | src/proxy/sanitize.rs:326-356 | on an ASCII answer the breaker closes the stream at a frame exactly when the unbounded detector would on the whole answer so far |
| `SanitizerLaws.ChineseFrameCrashes` | src/proxy/sanitize.rs:316-356 | any frame, whatever its text, that reads as a delta with 54 times a Chinese character takes a fresh stream down |
| `StreamClient.ConsumeStream` | src/engine/provider.rs:197-300 | the result depends on the concatenated bytes only: the assembled contributions of the frames up to the done line or the end, or the failure; `StreamLaws.AnswerIsSum` says the same on the JSON values |
| `StreamClient.ReadBuffered` | src/engine/provider.rs:213-288 | the line loop reads exactly the complete lines of the buffer and stops where the specification stops |
| `StreamClient.AddToolCall` | src/engine/provider.rs:257-283 | a fragment extends the arguments and overrides the id and the name of the call with its index; a fragment without an index is skipped; at which keys they stand, `StreamLaws.FramesSum` says |
| `StreamClient.AddChoice` | src/engine/provider.rs:235-286 | one choice contributes its finish reason, then its content, then its fragments |
| `StreamClient.AddFrame` | src/engine/provider.rs:226-287 | one frame contributes its token count and its choices in order |
| `StreamClient.IntoValues` | src/engine/provider.rs:379-382 | the values leave the map by ascending key, one for each |
| `StreamClient.Assemble` | src/engine/provider.rs:363-391 | the completion is the assembled contributions, its tool calls by ascending index |
| `StreamClient.OneCallPerIndex` | src/engine/provider.rs:256-391 | exactly one tool call for each index seen, by ascending index, its arguments the in-order concatenation of its own fragments, its index field left at zero |
| `StreamClient.ArgumentsExtend` | src/engine/provider.rs:276-281 | later fragments only extend the arguments |
| `StreamClient.InertExactly` | src/engine/provider.rs:226-391 | further contributions leave the completion as it is exactly when they bring no content, no other finish reason or token count, no new index, and for each index no arguments and no other id or name |
| `StreamLaws.AnswerIsSum` | src/engine/provider.rs:197-300 | for every byte stream: the answer is the sum of the frames of all complete lines, or of those before the `data: [DONE]` line, and it fails exactly when a line before that carries no JSON or the transport breaks without one |
| `StreamLaws.FramesSum` | src/engine/provider.rs:226-391 | the sum of some frames, on their JSON values: the content is all strings at "content" of the deltas (else messages) of all choices, the finish reason the last string at "finish_reason", the token count the last number at "usage", "completion_tokens"; one tool call for each "index" of the "tool_calls" entries, ascending, with the last string at "id", the last at "function", "name", and all strings at "function", "arguments" |
| `StreamLaws.LinesRead` | src/engine/provider.rs:213-226 | the client reads on exactly while no line is the done line or carries no JSON behind `data:`, and what it has then are the frames of those lines |
| `Transparency.ProxyIsTransparent` | src/proxy/sanitize.rs:245-359 | for a newline-terminated stream that the sanitizer leaves undisturbed, the client behind the proxy gets the same completion, or the same failure, as from the engine |
| `Transparency.ProxyReadsAlike` | src/engine/provider.rs:210-299 | for every undisturbed stream the client reads from the proxy what it would read from the upstream bytes with their last newline put in |
| `Transparency.UnterminatedExactly` | src/proxy/sanitize.rs:287-297 | without the final newline the two results agree exactly when the client had stopped before, or the unfinished last line does not matter: on a clean end a skipped line, a done line, or a frame that changes nothing; on a transport error any line but a done line |
| `Transparency.MissingNewlineShows` | src/proxy/sanitize.rs:287-297 | a stream on which they differ |
| `Transparency.EncodeLines` | src/engine/provider.rs:213-215 | splitting encoded text at newline bytes is splitting the text at newline characters |
| `Transparency.EncodeInjective` | src/engine/provider.rs:213-215 | no two texts have the same UTF-8 bytes, so that a decoder that loses nothing is possible |
| `Calendar.CivilStep` | src/evo/optimizer.rs:187-198 | the date of the next day number is the next calendar date, leap years included: the division formula is the Gregorian calendar |
| `Calendar.CivilEpoch` | src/evo/optimizer.rs:187-198 | day zero is the first of January 1970 |
| `Calendar.ToDaysFromDays` | src/evo/watchdog.rs:101-109 | for every day number, the parser's day arithmetic inverts the printer's |
| `Calendar.FromDaysToDays` | src/evo/watchdog.rs:101-109 | for every valid calendar date, the printer's arithmetic inverts the parser's |
| `Calendar.CivilIncreasing` | src/evo/optimizer.rs:187-198 | later day numbers have later dates |
| `Timestamps.RoundTripBefore10000` | src/evo/watchdog.rs:77-99 | every time stamp of the years before 10000 parses back to its millisecond |
| `Timestamps.RoundTripExactly` | src/evo/watchdog.rs:77-99 | for all 64-bit millisecond counts, the round trip holds if and only if the year is below 10000 |
| `Timestamps.IsoShape` | src/evo/optimizer.rs:181-211 | before the year 10000 the stamp is `YYYY-MM-DDTHH:MM:SS.mmmZ` with the civil date of its day and the time of that day |
| `Timestamps.ParsePanicsExactly` | src/evo/watchdog.rs:77-99 | the parser slices out of range exactly on a point that only one or two characters follow, behind six good fields; it refuses exactly what is short or has a bad field |
| `Timestamps.ParsesAsU64` | src/evo/watchdog.rs:77-99 | every printed date of the years 0 to 9999 parses to its milliseconds since 1970, and one before 1970 to those wrapped around in 64 bits |
| `Timestamps.MisalignedUnparsed` | src/evo/watchdog.rs:77-99 | a printed year of five, six, eight or nine digits makes the stamp unparseable |
| `Timestamps.SevenDigitYear` | src/evo/watchdog.rs:77-99 | a printed year of seven digits parses, to a moment near the epoch or beyond the 64-bit range |
| `Timestamps.OrderEmbedding` | src/evo/lineage.rs:220-230 | for the years before 10000, the strings are in order if and only if the moments are: the tie-break is chronological |
| `Timestamps.OrderExactly` | src/evo/lineage.rs:220-230 | for any two moments in order, the strings are in order exactly when the earlier year does not exceed the later one cut to its number of digits |
| `Timestamps.OrderBreaksAt10000` | src/evo/lineage.rs:220-230 | the first moment of the year 10000 sorts before the last one of 9999 |
| `Lineage.WalkAncestors` | src/evo/lineage.rs:199-212 | on any node list, cyclic ones included, the walk ends; it lists each node of the reflexive-transitive parent closure exactly once, the start first, and answers None if and only if some reached id is missing |
| `Lineage.Load` | src/evo/lineage.rs:84-129 | a file is accepted exactly when every line parses, no id repeats and every parent is another node of the file; otherwise the error names the first offending line, and its fault is that line's: invalid, a repeated id, or its first self-reference or dangling parent |
| `Lineage.ReadRecords` | src/evo/lineage.rs:91-105 | the first pass: records with their line numbers, or the first line that does not parse or repeats an id |
| `Lineage.FindBadParents` | src/evo/lineage.rs:107-122 | the second pass: the first record with a self-reference or a dangling parent |
| `Lineage.SaveAndLoad` | src/evo/lineage.rs:140-152 | what is saved loads back as it was, exactly when it meets the loader's checks |
| `Lineage.AppendOnlyIsLoadable` | src/evo/lineage.rs:156-169 | every lineage built by appends meets the loader's checks |
| `Lineage.AppendOnlyIsAcyclic` | src/evo/lineage.rs:156-169 | no path of parent links in such a lineage comes back to its start |
| `Lineage.TwoCycleLoads` | src/evo/lineage.rs:107-122 | a two-node cycle that the loader accepts |
| `Lineage.AcyclicExactly` | src/evo/lineage.rs:84-169 | an accepted file is acyclic if and only if its nodes, in some order, are a lineage that appends could have built |
| `Lineage.Lineage.AddNode` | src/evo/lineage.rs:156-169 | a node is appended exactly when its id is new and its parents are known; otherwise nothing changes and the error names the duplicate or the first unknown parent |
| `Lineage.FirstUnknownIs` | src/evo/lineage.rs:161-165 | the parent that the error names is unknown, and all parents before it are known |
| `Lineage.AppendKeeps` | src/evo/lineage.rs:156-169 | whatever is appended, parents stay before children and ids distinct |
| `Lineage.BestParentIsBest` | src/evo/lineage.rs:173-179 | a scored node that no scored node beats; absent only when nothing is scored |
| `Lineage.BestParentIsLast` | src/evo/lineage.rs:173-230 | it beats every scored node that was appended after it: of equals the last one is chosen |
| `Lineage.HeadIsBestLeaf` | src/evo/lineage.rs:182-194 | the same choice among the nodes that are nobody's parent |
| `Evo.MeanIsPassShare` | src/evo/optimizer.rs:56-63 | the mean is the share of passes among the tasks that ran, between zero and one, absent when all errored |
| `Evo.CommitArtifact` | src/evo/optimizer.rs:148-168 | along a run of commits it always succeeds and appends one node below the head |
| `Evo.CommitNeverFails` | src/evo/optimizer.rs:148-168 | on every run of commits, with any times and scores, the next append is accepted and parents come before children |
| `Evo.CommittedChained` | src/evo/optimizer.rs:148-168 | node i is commit i, with its artifact, its mean and its time, below commit i-1 when that one is scored and else a root |
| `Evo.ChainedHead` | src/evo/lineage.rs:182-194 | there is at most one scored leaf; the head is the newest node if it is scored and absent otherwise |
| `Evo.CommitIdInjective` | src/evo/optimizer.rs:148-168 | commit ids never repeat, even within one millisecond |
| `Evo.CommitIdReads` | src/evo/optimizer.rs:148-168 | an id is "commit", the millisecond and the count, in decimal, with dashes between |
| `Evo.CommitAncestors` | src/evo/lineage.rs:199-212 | the ancestors of a commit are the commits back to the last break in the scored chain |
| `Evo.EmptyExactly` | src/evo/watchdog.rs:43-58 | the verdict is Empty exactly without nodes; otherwise it is StalledOld exactly when the newest stamp parses and is seven days old, and a crash exactly when that stamp crashes the parser |
| `Evo.RecommendIsEarliestBest` | src/evo/optimizer.rs:173-175 | for commits stamped before the year 10000, the recommended commit is the fittest, and among equals the one committed earliest in time |
| `Evo.StalledOldExactly` | src/evo/watchdog.rs:43-75 | with its newest commit stamped before the year 10000, a run is found old exactly when seven days have passed since that commit |
| `Evo.StalledOldLate` | src/evo/watchdog.rs:43-99 | with its newest commit stamped later, a run is never found old, unless the printed year has seven digits: then exactly when seven days have passed since the moment near the epoch or beyond the 64-bit range that the parser reads; it never crashes |
| `Evo.NoImprovementExactly` | src/evo/watchdog.rs:43-75 | a fresh lineage is stalled exactly when the last five commits hold two scored ones and the newest of those is not above the oldest |
| `Slots.TaskSemaphore.TryClaim` | src/task/semaphore.rs:226-295 | a slot is claimed exactly when no live process holds it |
| `Slots.TaskSemaphore.AlienTenantActive` | src/task/semaphore.rs:298-307 | whether another live process holds any slot |
| `Slots.TaskSemaphore.Attempt` | src/task/semaphore.rs:310-322 | an attempt fails exactly when another live process holds a slot or live processes hold all; otherwise it takes the lowest slot that no live process holds, and touches no other |
| `Slots.TaskSemaphore.Release` | src/task/semaphore.rs:360-397 | another live process's lease and the wait queue stay and the answer says so; otherwise any file of the slot goes, or none if there was none, and the head waiter is woken |
| `Slots.TaskSemaphore.ClearReclaimable` | src/task/semaphore.rs:448-471 | exactly the leases of live processes stay |
| `Slots.DoubleReleaseExactly` | src/task/semaphore.rs:360-397 | a release changes nothing, of files and queue, exactly when another live process holds the slot, or the slot has no file and nobody waits |
| `Slots.DoubleReleaseShows` | src/task/semaphore.rs:360-397 | a second release that wakes a second waiter for one free slot, and one that removes the newer lease of its own process |
| `Slots.RunsAreSafe` | src/task/semaphore.rs:226-397 | over whatever files dead processes left, and whatever is given back and when: in every state of every run all leases of live processes belong to one process and lie within the slots |
| `Slots.StepKeepsSafe` | src/task/semaphore.rs:226-397 | each step, process start and death and unrestricted releases included, keeps that |
| `Slots.LiveLeaseStays` | src/task/semaphore.rs:218-397 | a live lease outlives every step of every other process, their releases of the slot included, and every step of its owner but its release of that slot, or death |
| `Slots.GiveBackKeepsGrantsExactly` | src/task/semaphore.rs:360-378 | a release leaves all other granted handles backed by their files exactly when its process holds no other handle for the slot |
| `Slots.GrantsHold` | src/task/semaphore.rs:298-397 | when nothing is given back twice, what live processes believe to hold is on disk in their names, each slot once, all of them one process, within the slots |
| `Slots.Waiters.Enqueue` | src/task/semaphore.rs:325-336 | a waiter joins at the end; the queue has no duplicates and exactly the keys of the channel map |
| `Slots.Waiters.Leave` | src/task/semaphore.rs:344-352 | leaving takes out that waiter alone, and nothing when a release already did |
| `Slots.Waiters.WakeHead` | src/task/semaphore.rs:380-394 | a release wakes the head of the queue, and nobody when it is empty |
| `Slots.FirstInFirstOut` | src/task/semaphore.rs:325-394 | on every run of the queue: when a waiter is woken, of those that joined before it exactly those were woken earlier that did not leave while still queued |
| `Slots.TimeoutLosesPlace` | src/task/semaphore.rs:323-353 | a waiter that times out and joins again is passed by one that joined after it |
| `Slots.WithoutKeepsOrder` | src/task/semaphore.rs:344-352 | the waiters that stay keep their order |
| `Locks.Locks.Acquire` | src/state/mod.rs:183-225 | acquired exactly when there is no lock or it is older than the caller's time to live; other names are untouched |
| `Locks.Locks.Release` | src/state/mod.rs:230-245 | only the process in the file releases it; the other answers leave everything as it is |
| `Locks.GrantStandsExactly` | src/state/mod.rs:183-245 | on every run, with any clock and any times to live: an unreleased grant is followed by no other one, and is the lock in the file, exactly as long as no later acquire asks for no more time than has passed since |
| `Locks.HolderIsNamed` | src/state/mod.rs:183-245 | while it stands, the file has its process, time and time to live; every acquire that asks for more than has passed is told of that process, only that process can release it, and every other one is told of it |
| `Locks.YoungLeaseIsInFile` | src/state/mod.rs:183-245 | so with a clock that does not run back, an unreleased lease younger than the smallest time to live is the one in the file |
| `Locks.AtMostOneYoungLease` | src/state/mod.rs:183-245 | there is at most one of them |
| `Locks.ShortLeaseTakesOver` | src/state/mod.rs:196-222 | a holder with time to spare loses the lock to a caller that asks for less |
| `Locks.LateReleaseRefused` | src/state/mod.rs:230-245 | a process that lost the lock to another one and was not granted it again cannot release it, whatever the clock and the times to live: the release is refused and the file stays |
| `Locks.StuckExactly` | src/state/mod.rs:195-209 | on every run the lock file fails acquires and releases exactly when it could not be parsed from the start; any other lock can be acquired after some time |
| `Registry.TaskRegistry.Create` | src/task/registry.rs:200-230 | the next number; on a successful write the new record, in memory and in its file, has the prompt, directory and session given, is queued, without process, reason, start or end, with no budget and the present time as creation and heartbeat, and no other record changes; on a failed write no record does |
| `Registry.TaskRegistry.Get` | src/task/registry.rs:233-241 | the readable disk copy wins over memory |
| `Registry.TaskRegistry.List` | src/task/registry.rs:262-278 | every readable mirror file is in memory afterwards, in any directory order |
| `Registry.TaskRegistry.Update` | src/task/registry.rs:284-302 | the mutation is applied to the current record and saved |
| `Registry.TaskRegistry.Transition` | src/task/registry.rs:312-357 | a terminal task is refused; otherwise status, reason and time stamps move in memory and on disk |
| `Registry.TaskRegistry.ReapOrphans` | src/task/registry.rs:363-394 | exactly the executing tasks with a dead worker that have not ended are failed, in any order, and the answer counts those saved |
| `Registry.TaskRegistry.ExtendBudget` | src/task/registry.rs:403-426 | the answer is the capped 32-bit sum; the stored record is the reloaded one |
| `RegistryLaws.EndedStaysExactly` | src/task/registry.rs:200-426 | from any store, one step: no operation ends an ended task again, and it stays as it ended exactly when the operation does not give its number to a new task |
| `RegistryLaws.EndedForGoodExactly` | src/task/registry.rs:200-426 | on every run, over whatever mirror files it finds: an ended task keeps its status, reason and end time exactly as long as its number is not given to a new task |
| `RegistryLaws.EndsOnce` | src/task/registry.rs:200-426 | two ends of one number in a run, failing writes included, mean that in between the number was given to a new task |
| `RegistryLaws.OwnTaskEndsOnce` | src/task/registry.rs:200-426 | a task whose number the run did not find on disk ends at most once, without condition |
| `RegistryLaws.OldTaskEndsTwice` | src/task/registry.rs:200-357 | a run in which a task found on disk ends twice |
| `RegistryLaws.CreateOverwritesExactly` | src/task/registry.rs:200-230 | every create of every run takes over an old mirror file exactly when the run found one of that number, never a task of its own run |
| `RecordLaws.StepMoves` | src/task/registry.rs:200-426 | one operation, at any task, field by field: what becomes of the record in the file and of the one in memory, refused writes included; a transition sets status, reason and heartbeat, the start only if there is none and the end only on an end, and leaves all other fields |
| `RecordLaws.CreatedAsAsked` | src/task/registry.rs:200-426 | on every run whose updates leave these alone, a task that the run created has the prompt, directory, session and creation time it was created with, in memory and in its file, in every later state |
| `RecordLaws.FoundAsFiled` | src/task/registry.rs:200-426 | a task found on disk keeps its own until its number is given to a new task |
| `RecordLaws.StartIsFirst` | src/task/registry.rs:312-357 | on every run whose updates leave it alone, the start in the file of a task that the run created is the time of its first transition to Executing that could be written, and absent before |
| `RecordLaws.ExtensionCapped` | src/task/registry.rs:403-426 | below the 32-bit limit an extension adds its turns, up to two hundred in all |
| `RegistryLaws.RunIsStamped` | src/task/registry.rs:200-426 | if a task's file goes with its status in having an end time when the run finds it, or there is none, so it does in memory and on disk in every later state |
| `RegistryLaws.MirrorPartsExactly` | src/task/registry.rs:181-426 | one step, with whatever writes failing: memory and disk, agreeing on a task before, part on it exactly when the operation changes its record and is refused the write |
| `RegistryLaws.RunIsMirrored` | src/task/registry.rs:181-426 | so on every run memory and disk agree on a task until an operation changes its record and is refused the write |
| `RegistryLaws.MemoryIsReadable` | src/task/registry.rs:200-426 | on every run, each task in memory has a readable file |
| `RegistryLaws.ReapIsIdempotent` | src/task/registry.rs:363-394 | from any store, with whatever writes failing in either sweep, a second sweep right after the first finds nothing and changes nothing |
| `RegistryLaws.ExtensionStoredExactly` | src/task/registry.rs:403-426 | from any store, the reported budget is the stored one exactly when the mirror file is unreadable or already held it |
| `RegistryLaws.ExtensionsNeverStored` | src/task/registry.rs:403-426 | no extension of any run changes any file |
| `RegistryLaws.ExtensionLost` | src/task/registry.rs:403-426 | the first task of a fresh registry, extended by twenty turns: twenty are reported, none are stored |
| `RegistryLaws.WorkerResurrectsExactly` | src/mcp/worker.rs:71-87 | over the registry that the worker opens, its first update keeps end time and status together exactly when the task has not ended; otherwise the task executes again and can end again |
| `RegistryLaws.CancelledTaskStarts` | src/mcp/worker.rs:71-87 | a task cancelled while it waited for its slot is started all the same |
| `Pruner.PlanSessions` | src/pruner.rs:204-306 | the plan is the part of the sorted candidates that the three gates reach, one after the other |
| `Pruner.PlanKeepsPromises` | src/pruner.rs:204-306 | the plan is the oldest part of the candidates, which are the sessions with a terminal event and no open task; no other session is in it; every candidate over age is; what stays meets the count and the size limit, in mebibytes, unless every candidate goes |
| `Pruner.PlanWithinLimits` | src/pruner.rs:257-298 | when the sessions are within both limits, exactly the candidates over age are planned |
| `Pruner.AgeGate` | src/pruner.rs:259-263 | the age gate takes exactly the leading candidates that are over age |
| `Pruner.CountGate` | src/pruner.rs:265-279 | the count gate takes its whole excess on top of those |
| `Pruner.SizeGate` | src/pruner.rs:281-298 | the size gate goes on until the size of all sessions less what it took itself is within the ceiling |
| `Pruner.ByMtimeSorts` | src/pruner.rs:254-255 | the sorted candidates are the candidates, oldest first |
| `Pruner.ByMtimeIsStable` | src/pruner.rs:254-255 | candidates of one time keep their directory order |
| `Pruner.KeptAndPlanned` | src/pruner.rs:300-305 | what goes and what stays make up the whole, in number and in bytes |
| `Pruner.CountGateOvershootsExactly` | src/pruner.rs:265-279 | the count gate goes beyond the least number of sessions that meets the count limit exactly when some but not all candidates are over age and the excess is positive but below their number |
| `Pruner.SizeGateOvershootsExactly` | src/pruner.rs:281-298 | the size gate goes beyond the least prefix that meets the size limit exactly when that is not all candidates and the part the gate took itself does not meet the limit alone |
| `Pruner.PlanOvershootsExactly` | src/pruner.rs:257-298 | a whole plan goes beyond the least one that takes all over age and meets both limits exactly when that is not all candidates, and the count gate went beyond it or the size gate could not count all of its bytes |
| `Pruner.GatesOvershoot` | src/pruner.rs:257-298 | two sessions of which the older alone would do, for the count limit and for the size limit, and both are planned |
| `Pruner.ActiveTaskSessionIds` | src/pruner.rs:335-369 | exactly the sessions that a task file with a status other than completed, failed or cancelled refers to |
| `Pruner.RefersExactly` | src/pruner.rs:335-369 | a file refers to a session exactly when its name ends in ".json", it parses, its "session_id" is that session, and its "status" is not one of the three |
| `PosixPath.PosixNormalize` | src/tools/shell.rs:268-284 | the stack loop computes the fold of the path's components, which the `PathLaws` from `PathLaws.SingleComponent` to `PathLaws.StepUp` determine in terms of paths alone |
| `PosixPath.NormalizedShape` | src/tools/shell.rs:268-284 | the result is the root or components joined by single slashes, none of them empty, "." or "..", and splits back into them |
| `PosixPath.NormalizeIdempotent` | src/tools/shell.rs:268-284 | normalising twice is normalising once |
| `PosixPath.NormalizeComposes` | src/tools/shell.rs:322-325 | a path resolves the same against a directory and against its normal form |
| `PathLaws.SingleComponent` | src/tools/shell.rs:268-284 | a path of one component is that component below the root, or the root for an empty one, "." and ".." |
| `PathLaws.StandingStill` | src/tools/shell.rs:270-273 | behind any path, a slash and "/." change nothing |
| `PathLaws.StepDown` | src/tools/shell.rs:276-283 | behind any path, any other component is appended to its normal form |
| `PathLaws.StepBack` | src/tools/shell.rs:274-277 | behind any path and any such component, "/.." takes that component back |
| `PathLaws.ParentOfNormal` | src/tools/shell.rs:274-283 | behind a normal form, "/.." takes its last component away; the root is its own parent |
| `PathLaws.StepUp` | src/tools/shell.rs:274-283 | behind any path, "/.." cuts its normal form off before its last slash, down to the root |
| `PosixPath.NormalizeOperand` | src/tools/shell.rs:307-341 | the operand is resolved with its wildcard taken off and put back; the loop over trailing slashes is in the body and is shown to change nothing; what each stage does to the text, the `PathLaws` below say |
| `PathLaws.TildeExpands` | src/tools/shell.rs:210-228 | what a tilde stands for: the home directory, that of root, or that of the user it names, on Windows below `C:\Users\`; any other operand stays |
| `PathLaws.HomoglyphsFold` | src/tools/shell.rs:286-305 | a text of ASCII characters, each plain or in its full-width form, folds to the plain text |
| `PathLaws.HomoglyphsResolveAlike` | src/tools/shell.rs:286-341 | so such a look-alike of an operand that begins with no tilde resolves as the operand itself |
| `PathLaws.OthersStay` | src/tools/shell.rs:292-305 | no other character is changed |
| `PathLaws.DriveIsMounted` | src/tools/shell.rs:245-256 | `C:\…` and `C:/…` lie below `/mnt/c/`, with all slashes turned |
| `PathLaws.SlashDriveIsMounted` | src/tools/shell.rs:257-264 | so does `/C/…` |
| `PathLaws.WslIsLocal` | src/tools/shell.rs:235-244 | the path behind a WSL host and distribution is an absolute one, with its slashes turned |
| `PathLaws.PlainPathStays` | src/tools/shell.rs:230-266 | a blank path is the home directory; any other one without backslashes that does not read as a drive is only trimmed |
| `PathLaws.WildcardIsKept` | src/tools/shell.rs:307-341 | a wildcard at the end of the operand is put back behind the resolved path, with the root left out |
| `PathLaws.LowerAt` | src/tools/shell.rs:340 | ASCII capitals become small letters, and nothing else changes |
| `PosixPath.OperandCwdExactly` | src/tools/shell.rs:307-341 | for every working directory, all operands resolve the same against it and against its normal form exactly when that form survives `to_posix` |
| `PosixPath.OperandAgainstNormalCwd` | src/tools/shell.rs:322-327 | an operand resolves the same against the raw and the normal working directory if that normal form survives `to_posix` |
| `PosixPath.ToPosixKeepsExactly` | src/tools/shell.rs:230-266 | a normal form survives `to_posix` exactly when it has no blank at its end, no backslash, and does not read as a drive |
| `PosixPath.OperandAgainstDriveCwd` | src/tools/shell.rs:254-262 | a working directory for which it does not |

## Left out

- Runner.RunSession: the turn counter is unbounded where the code has 32 bits; a refused ledger append leaves no partial line; the wording of prompts and final texts is represented by their purpose.
- Runner.ExecuteSalvageTools: the tool output that the salvage's ledger events carry is not kept in the event.
- LoopDetection.LoopDetector.Record: takes the 64-bit hash of the action as given; different actions with one hash count as the same, as in the code.
- StreamClient.ConsumeStream: first-token time and token rate are not modelled; all parse and transport errors are one error.
- Transparency.ProxyIsTransparent: assumes of the two text decoders that they read valid UTF-8 without a byte order mark as its text, and hold nothing back at its end.
- Timestamps.RoundTripExactly: the parser is modelled on strings in which byte and character offsets agree; every printed stamp is of that kind.
- Evo.MeanIsPassShare: fitness is a real number, so NaN and rounding are not modelled.
- Slots.TaskSemaphore.Attempt: one attempt, one release and one sweep are each one step, and file errors other than an existing file are not modelled; the interleavings of create-then-write and check-then-rename between processes are left out.
- Slots.RunsAreSafe: process ids are not reused, and all processes agree on the number of slots.
- Slots.TaskSemaphore.Release: the caller counts itself among the living, as the liveness probe does.
- Locks.Locks.Acquire: one acquire is one step; the lost race between rename and create is left out.
- Registry.TaskRegistry.List: asks that every record is filed under its own number; so does ReapOrphans. A mirror file with a foreign number in it is not modelled.
- Registry.TaskRegistry.ExtendBudget: the 32-bit sum wraps, as in a release build; a debug build panics.
- RegistryLaws.EndsOnce: updates that change the status, the reason, the end time or the number are excluded; `RegistryLaws.WorkerResurrectsExactly` says what one of them does. The mirror files that a run finds are arbitrary but each filed under its own number.
- Pruner.PlanSessions: file sizes are summed without overflow; modification times, sizes and the terminal-event flag of each session are given.
- HTTP, process spawning, signals, scheduling, command line and configuration: input and output only.
- JSON syntax, the `encoding_rs` decoder, regular expressions, HTML conversion: library behaviour, taken as arbitrary functions where a core needs it.
- Planning of task, telemetry and evo files, and the fingerprint that guards `apply`: the same age test, and a hash that is not injective.
- `tokenize`, `split_segments` and the dangerous-command policy of the shell tool: text scanning with a security purpose, of which only the path arithmetic is modelled.
- The wedge counter, slot status reports, terminal broadcast channels, telemetry counters, the skills index and trace scorers: simple folds and formatting.
