# Verified model of the AI agent monitor

This project models the stateful core of a monitor for AI agents and proves what it keeps over
whole runs. A browser extension captures events, a local daemon stores them, tails the transcripts
that agents write, supervises a proxy process, and scans the machine on request; around it stand a
static privacy gate, an install-command parser, clean-up and reporting code.

Objects that the program updates in place are classes whose methods are tied to specification
functions; the same functions are the steps of the state machines over which the main results are
proved. Loops of the program are loops here. Everything the program takes from outside (digests,
masking of credentials, SQLite's date arithmetic, answers of `ps`, success of commands, the clock)
is a parameter that the results quantify over. `dafny verify dfyconfig.toml` checks everything.

| file | what it models |
|---|---|
| `RollingHash`, `CaptureDedup`, `SendRules` | the content script's rolling hash and its rate-limited, evicting duplicate filter, and which captures leave the page |
| `CaptureQueue`, `QueueLimits`, `DeliveryOrder` | the background worker's buffer, batches and retries, with overlapping requests, and when those cannot reorder events |
| `BrowserIngest`, `IngestRules`, `CapturePipeline` | the daemon's duplicate check on arrival, exactly which captures it keeps, and the capture path end to end |
| `TranscriptLines`, `TranscriptTail`, `TailingCrashes` | reading transcripts in pieces, several threads tailing files with shared offsets, and crashes meanwhile |
| `Sessions`, `StatementLog`, `TurnView`, `TokenDeltas` | what the watcher's threads write, statement by statement, and the dashboard's cut of a session into turns and token deltas |
| `Watchdog`, `WatchdogPause`, `CrashRecovery`, `CrashRuns`, `Orphans` | proxy supervision, recovery at start-up, runs of crashes and starts, and which listeners may be killed |
| `ScanSlot`, `ScanOutcomes` | the Discover button: handlers, runner threads and the scan lock, and which status each scan leaves |
| `PythonTree`, `Urls`, `PrivacyGate` | the static gate on HTTP calls |
| `GateAcceptance`, `GateSoundness`, `GateExact`, `GateLimits` | what it accepts and reports, its soundness against program values, exactly which calls are safe, and the programs it passes wrongly |
| `SupplyTables`, `InstallParser`, `PrintedTokens`, `InstallRoundTrip`, `ShellCommands` | parsing shell commands that install packages: tokens, lists, and the command line around them |
| `Cleanup` | removal of duplicates and empty sessions, and hash backfill |
| `ProcessTree` | the process-tree closure and the connection log of the network audit |
| `LiveFeed`, `StreamLogger`, `Escaping`, `TrafficDedup` | the live feed, line-buffered logging, Markdown and AppleScript escaping, the traffic list |
| `Text`, `Wrappers` | strings and optional values |

## Where the code and its documentation differ

The model follows the code.

- Duplicate suppression in the page lasts 24 hours; the comment beside the test says one hour (shared.js:64).
- A batch whose request fails after the daemon stored it, in whole or in part, is sent again. It leaves
  no trace exactly when every event delivered more than once has a conversation, text and a readable
  time (`TableIsAsIfDeliveredOnce`); without a conversation id it is stored once per delivery
  (`NoConversationIsStoredTwice`).
- Requests may overlap, and then arrival order need not be capture order (`OverlapReorders`;
  `OrderIsSafeIff` says exactly when no server schedule can disturb it).
- A transcript line that is read half-written is consumed as two records
  (`HandledIsTheTextIffReadsAreClean` says exactly when that happens).
- Equal beginnings of two captures of one conversation and type are told apart only as far as their
  32-bit hashes are (`LeavesIff`).
- A crash after the commit of an offset and before that of its records loses those records
  (`NothingIsLostIff`).
- A prompt whose text is null is stored, and then an exception keeps its turn from being counted, so
  the dashboard's view can exceed the session row (`NullTextLosesItsTurn`,
  `ViewNeverExceedsTheRowIff`).
- The runner of a scan is documented to clear the slot on every exit path; the slot is taken before
  the thread starts, and nothing clears it when starting fails. "Running exactly when a runner is live"
  holds in a run if and only if no thread failed to start (`RunningMeansLiveIffEveryThreadStarted`).
- One clean-up may leave duplicates, because hashes are filled in last (`OneRunIsEnoughIff`). The dry
  run also announces hashes for rows that the real run removes first as duplicates and for rows with
  empty text; its count is right exactly when there are neither (`DryHashCountIff`).
- Switching the system proxy off counts as done when the command was launched. Recovery then reports a
  fix that had no effect, again at every start (`ReportIsTrueIff`, `FalseFixIsRepeated`).
- A crash goes unreported when another process has the dead monitor's pid at the next start, when the
  pid file names a later monitor, or when such a monitor shuts down and takes the file along
  (`EveryCrashIsReportedIff`). A second proxy is spawned exactly when a start or restart does not see
  the live one on file (`AtMostOneProxyIff`).
- A stop during the backoff sleep of a restart is undone when the restart spawns a child
  (`StopLastsIff`).
- The first recovery call leaves the pid file of the orphan it kills (`StalePidFileRemainsIff`).
- The proxy is reported as restored whether or not the command that switches it on had an effect
  (`ReportedRestoreIsTrueIff`).
- The list of killed orphans may name survivors (`ReturnedMayHaveSurvived`).
- The sum of a session's per-turn token deltas is its total exactly when no usage that counts is
  followed by another before the next prompt (`DeltasAddUpIff`).
- `pip install django getmac` contains `go get`, and is not read as two pip packages
  (`DjangoGetmacIsMisread`; `RoundTripIff` says exactly when a printed command of any manager is read
  back).
- The text before an install pattern is dropped whether or not it starts with docker, as the comment on
  that step has it (`WrapperIsDropped`).
- `npm install @types/node` installs a package that the parser drops: a scoped name without a version
  is taken for a version without a name (`UnpinnedScopeIsDropped`, `TokenIsReadBackIff`).
- The privacy gate accepts a literal such as `https://pypi.org` followed by run-time text, which can
  still become another host (`AcceptedLiteralIsSafeIffClosed`).
- For `requests.request` and `httpx.request` the gate reads the HTTP method in place of the URL, so
  `requests.request("https://pypi.org/x", "https://evil.example/")` passes
  (`MethodIsTakenForTheUrl`, `GateSufficesIffItReadsTheUrl`).
- The gate looks through anything called `Request`, whatever that is (`ForeignWrapperPasses`,
  `CallReachesIffGenuine`).

## Model

| member | source | states |
|---|---|---|
| `CapturePipeline.TableIsAsIfDeliveredOnce` | src/claude_monitoring/dashboard_handler.py:542-577 | In every run with any redeliveries, where SQLite answers with an earlier text, the table equals what one delivery of each event in order of first arrival leaves if and only if every event delivered more than once has a conversation, text and a readable time |
| `CapturePipeline.TableIsAsIfDeliveredOnceIff` | src/claude_monitoring/dashboard_handler.py:542-577 | With no assumption on SQLite: that equality holds if and only if every event that came again was suppressed or ignored when it did; in any case the set of rows is the same |
| `CapturePipeline.ExtensionTableIsAsIfDeliveredOnceIff` | src/claude_monitoring/dashboard_handler.py:542-577 | For the extension's ISO timestamps, and a SQLite that answers each with an earlier day, the condition comes down to conversation and text |
| `CapturePipeline.ARedeliveryLeavesNoTrace` | browser-extension/background.js:22-54 | A run, an environment and a table to which this applies: a batch put back after the server took it and taken again |
| `CapturePipeline.RepeatsAgainstOnce` | src/claude_monitoring/dashboard_handler.py:542-577 | Over any list of deliveries the table has the same rows as with repeats removed, at least as many, and as many exactly when every repeat is absorbed |
| `CapturePipeline.SerialTableIsInCaptureOrder` | browser-extension/background.js:22-54 | With one request at a time and repeats absorbed, the table is that of one delivery of each delivered event in order of capture |
| `CapturePipeline.RepeatsWereEchoed` | browser-extension/background.js:34-53 | Only events the server took from a batch that was put back, before or after that, are ever delivered twice |
| `CapturePipeline.BatchesAreAccepted` | src/claude_monitoring/dashboard_handler.py:497-500 | No batch of any run is refused by the ingest for its size |
| `CaptureQueue.EveryEventIsSomewhere` | browser-extension/background.js:12-60 | Under every interleaving of captures, ticks, single events taken (also from requests given up), successes and failures, each captured event is in exactly one of buffer, flight (taken or not), settled, dropped; the server takes it once more per put-back batch it was taken from |
| `CaptureQueue.EveryBatchIsSmall` | browser-extension/background.js:22-25 | Every batch under way holds between 1 and 100 events |
| `CaptureQueue.SerialDeliveryKeepsOrder` | browser-extension/background.js:12-60 | With at most one request outstanding and none continued after its failure, first deliveries and settlements follow capture order whatever else fails or is trimmed |
| `CaptureQueue.OverlapReorders` | browser-extension/background.js:22-54 | Two overlapping requests can deliver in the opposite order without any failure |
| `DeliveryOrder.OrderIsSafeIff` | browser-extension/background.js:22-54 | In every reachable state, all server schedules deliver in order if and only if what was delivered is in order, everything new is later, and no request can deliver a new event before an earlier new one |
| `DeliveryOrder.AlwaysInOrderIffSafe` | browser-extension/background.js:22-54 | The same for any requests whose tags identify their events |
| `DeliveryOrder.TakingIsAChoice` | browser-extension/background.js:22-54 | A step in which the server takes an event is one of the schedules' choices |
| `CaptureQueue.BackgroundWorker.OnMessage` | browser-extension/background.js:12-19 | A message with service and type joins the end of the buffer; others are ignored |
| `CaptureQueue.BackgroundWorker.TakeBatch` | browser-extension/background.js:22-25 | The batch is the oldest entries, at most 100; batch and rest make up the old buffer |
| `CaptureQueue.BackgroundWorker.PutBack` | browser-extension/background.js:42-60 | A failed batch returns to the front and only the oldest entries beyond 1000 are dropped |
| `QueueLimits.EveryCaptureIsQueued` | browser-extension/background.js:12-19 | What the queue accounts for is every message that arrived with a service and a type, in order of arrival, and nothing else |
| `QueueLimits.OnlyTheExcessIsDropped` | browser-extension/background.js:12-60 | In every run nothing is dropped while at most 1000 events were captured, and of more at least 1000 are not |
| `QueueLimits.FailureKeepsTheLatest` | browser-extension/background.js:42-60 | A failed batch goes back in front, and of all that waits exactly the latest 1000 stay |
| `QueueLimits.TickSendsTheOldest` | browser-extension/background.js:22-25 | A tick sends the oldest events of the buffer, all of them or 100 |
| `BrowserIngest.BrowserStore.Ingest` | src/claude_monitoring/dashboard_handler.py:495-577 | A list of at most 100 entries is folded into the table by the duplicate rule, and the reply counts the new rows; anything else is refused and changes nothing |
| `BrowserIngest.BrowserStore.FindRecent` | src/claude_monitoring/dashboard_handler.py:542-551 | True exactly when some row matches by the duplicate query; IngestRules.KeptIff says what that is by columns |
| `IngestRules.KeptIff` | src/claude_monitoring/dashboard_handler.py:502-577 | A delivered event is kept if and only if it has a service and a type and, where text is left after masking, no row of any table has its conversation, type, digest or first 200 characters, and a time within the week; the table then ends with one row of its fields, at most 5000 characters of masked text, and the digest of the first 200 |
| `IngestRules.NewsIsKept` | src/claude_monitoring/dashboard_handler.py:542-577 | An event whose conversation, type or text no row has is kept |
| `IngestRules.TableHoldsTheKept` | src/claude_monitoring/dashboard_handler.py:495-577 | A table filled from scratch holds, in order of arrival, exactly one row for each capture that repeats no capture kept before it: same conversation, type and digest of the first 200 masked characters, less than a week earlier |
| `IngestRules.OwnRowSaysTheSameIff` | src/claude_monitoring/dashboard_handler.py:545-546 | For rows the monitor wrote itself, comparing texts adds nothing to comparing digests |
| `IngestRules.CapturesOfBoth` | src/claude_monitoring/dashboard_handler.py:502-505 | The captures of a payload are those of its parts, in order |
| `IngestRules.ObjectsAreCaptured` | src/claude_monitoring/dashboard_handler.py:502-505 | Every object of a payload is a capture, and nothing else is |
| `BrowserIngest.RedeliveryIsAbsorbedIff` | src/claude_monitoring/dashboard_handler.py:542-577 | Delivering an event twice in a row changes nothing the second time if and only if it was ignored the first time or has a conversation, text and a readable time |
| `BrowserIngest.DeliveredIsAbsorbed` | src/claude_monitoring/dashboard_handler.py:542-577 | An event delivered at any earlier point meets a row that suppresses it, whatever was stored since |
| `BrowserIngest.NoConversationIsStoredTwice` | src/claude_monitoring/dashboard_handler.py:542-577 | An event without a conversation id is stored once per delivery |
| `BrowserIngest.EarlierDateIsEarlier` | src/claude_monitoring/dashboard_handler.py:547 | A text that starts with an earlier date compares below one that starts with a later date of the same length |
| `BrowserIngest.IsoIsRecognisableIff` | src/claude_monitoring/dashboard_handler.py:542-551 | An event with the extension's ISO timestamp falls inside its own seven-day window, so it is recognisable exactly when it has a conversation and text |
| `BrowserIngest.LeastEnvironmentAnswers` | src/claude_monitoring/dashboard_handler.py:547 | An environment that answers every such timestamp with an earlier day exists |
| `CaptureDedup.EvictionChangesNoDecision` | browser-extension/content_scripts/shared.js:53-72 | For every sequence of requests the evicting map sends exactly what an unbounded history would; sends are 2 s apart, equal keys 24 h apart, and the map never exceeds 43,201 entries |
| `CaptureDedup.DecisionsAgree` | browser-extension/content_scripts/shared.js:53-64 | In any state mirroring a history, the code sends exactly when the intended rule allows it |
| `CaptureDedup.SizeAfterSend` | browser-extension/content_scripts/shared.js:65-72 | After every send the map holds at most 43,201 entries |
| `CaptureDedup.CaptureGate.SendCaptureEvent` | browser-extension/content_scripts/shared.js:53-74 | The decision and the new map and time, as functions of the old ones |
| `CaptureDedup.CaptureGate.Cleanup` | browser-extension/content_scripts/shared.js:68-72 | Deleting while iterating removes exactly the entries older than the window |
| `SendRules.LeavesIff` | browser-extension/content_scripts/shared.js:53-74 | After any captures, with any clock readings, the next one leaves the page if and only if its text has at least 10 characters, nothing left in the last 2 s, and nothing of the same conversation and type whose first 200 characters have the same hash left in the last 24 hours |
| `SendRules.SameKeyIff` | browser-extension/content_scripts/shared.js:58-60 | Two captures have the same key if and only if conversation and type, joined, agree and so do the hashes of their first 200 characters; a missing conversation counts as unknown |
| `SendRules.ConversationsAreToldApart` | browser-extension/content_scripts/shared.js:58-60 | Captures of one type have the same key exactly when conversation and hash agree |
| `SendRules.Base36IsInjective` | browser-extension/content_scripts/shared.js:21 | Different hashes print differently, and no printed hash contains the separator |
| `RollingHash.SimpleHash` | browser-extension/content_scripts/shared.js:15-22 | The shift-and-subtract loop computes the sum of c[i] * 31^(n-1-i) reduced to a signed 32-bit integer |
| `RollingHash.StepIsHorner` | browser-extension/content_scripts/shared.js:18-19 | One pass is a Horner step modulo 2^32, and its intermediate value is exact as a double |
| `RollingHash.HashOfConcatenation` | browser-extension/content_scripts/shared.js:15-22 | The hash of a + b is determined by the two hashes and the length of b |
| `TranscriptTail.TailingIsExactlyOnce` | src/claude_monitoring/monitor.py:626-665 | Under every interleaving of threads and appends without a crash, offsets never decrease, the ranges read tile the file with no gap or overlap, and every record of the chunks read is handled or pending as often as it occurs |
| `TranscriptTail.HandledIsTheTextIffReadsAreClean` | src/claude_monitoring/monitor.py:635-660 | At rest, the records handled are those of the text between the initial and the current offset if and only if no read began inside a half-written line |
| `TranscriptTail.WholeLinesAreHandledExactlyOnce` | src/claude_monitoring/monitor.py:626-665 | When every append ends in a newline nothing is missing, torn or doubled |
| `TranscriptTail.TiledIsDisjoint` | src/claude_monitoring/monitor.py:635-646 | Ranges read from one file never overlap and come in file order |
| `TranscriptTail.ReadTakesTheRest` | src/claude_monitoring/monitor.py:630-653 | In every run a locked read that found the file longer than the offset takes exactly the records of all unread text and brings the offset to the end, and otherwise takes nothing |
| `TranscriptTail.TailingCanCatchUp` | src/claude_monitoring/monitor.py:626-660 | From any state of a run an idle thread alone can bring the offset to the end of the file and hand over all it read |
| `TailingCrashes.NothingIsHandledTwice` | src/claude_monitoring/monitor.py:641-660 | Over any run with any commits and crashes, ranges tile the file and every record of the chunks is handled, pending or lost as often as it occurs; the committed offset never runs ahead |
| `TailingCrashes.NothingIsLostIff` | src/claude_monitoring/monitor.py:641-660 | A record is lost if and only if the process died between the commit of its offset and that of its effects |
| `TailingCrashes.HandledAndLostAreTheTextIff` | src/claude_monitoring/monitor.py:635-660 | At rest the records handled and those lost make up the text if and only if no read began inside a half-written line |
| `TailingCrashes.WholeLinesSurviveCrashes` | src/claude_monitoring/monitor.py:626-665 | With whole-line appends and no crash midway, every record is handled exactly once however often the process died |
| `TailingCrashes.CommitIsRestored` | src/claude_monitoring/monitor.py:641-665 | A crash restores the offsets and the handled records of the last commit, and loses exactly what threads had before them then |
| `TranscriptTail.JSONLSessionWatcher.ReadNewData` | src/claude_monitoring/monitor.py:630-648 | Nothing when the size seen is not past the offset, else all text from the offset to the end, and the offset moves there |
| `TranscriptTail.JSONLSessionWatcher.ProcessJsonlFile` | src/claude_monitoring/monitor.py:626-660 | Handles the records of the newly read text in order, each once |
| `TranscriptLines.CutIsLosslessIffClean` | src/claude_monitoring/monitor.py:650-653 | Reading a text in two pieces yields the records of the whole if and only if the cut is not inside a half-written record |
| `TranscriptLines.CutNeverMerges` | src/claude_monitoring/monitor.py:650-653 | Two pieces never yield fewer records than the whole, and yield more exactly at an unclean cut |
| `TranscriptLines.ChunkRecords` | src/claude_monitoring/monitor.py:650-653 | Stripping the chunk before splitting it loses no record |
| `TranscriptLines.HalfWrittenLineIsTorn` | src/claude_monitoring/monitor.py:650-657 | A half-written line that is read is taken for two records |
| `TranscriptLines.RecordIsCore` | src/claude_monitoring/monitor.py:650-653 | A line has a record if and only if it is not all white space: the line without outer white space |
| `Text.SplitThenJoin` | src/claude_monitoring/monitor.py:650 | Splitting at line breaks is the inverse of joining, and no piece contains one |
| `Sessions.TotalsAccountForEvents` | src/claude_monitoring/monitor.py:546-600 | Under every interleaving of the threads' statements, any of them failing or cut short by an exception, a session row, what is owed to it and what it has lost account exactly for its stored events plus those turned away; at rest nothing is owed |
| `Sessions.RecordAlone` | src/claude_monitoring/monitor.py:678-745 | A thread that is not interrupted does to the store what processing the record does |
| `Sessions.RereadingIsHarmless` | src/claude_monitoring/monitor.py:678-686 | Processing the same identified record again changes nothing |
| `Sessions.SessionWatcher.ProcessRecord` | src/claude_monitoring/monitor.py:678-745 | The effect of one record on events, totals, seen ids and losses, up to the first event whose summary raises |
| `Sessions.SessionWatcher.StoreEvent` | src/claude_monitoring/monitor.py:568-600 | An event is inserted unless its digest is known, and then its summary may raise |
| `Sessions.SessionWatcher.UpdateSessionStats` | src/claude_monitoring/monitor.py:546-566 | Tokens and turns are added to the session's row, if it exists, and to no other |
| `Sessions.SessionWatcher.ChargeEvent` | src/claude_monitoring/monitor.py:546-566 | The figures of an event are added to its session's row, or lost when there is none |
| `StatementLog.TablesAreTheLog` | src/claude_monitoring/monitor.py:529-585 | In every run of the threads the listed events are those of the first effective insertion of each digest, in order; those turned away are of all other insertions, repeated or failed; a session has a row exactly once one was made, with the sums over the effective updates since |
| `StatementLog.EveryDigestIsListedOnce` | src/claude_monitoring/monitor.py:568-579 | No two listed events share a digest, and every insertion that took effect has its digest listed |
| `StatementLog.ThreadFollowsItsRecord` | src/claude_monitoring/monitor.py:678-745 | Whatever other threads do and whichever statements fail, a thread that has begun a record not seen sends its session row and its inserts and updates in order, each once, and unless cut short stops only when all are sent or a summary raises |
| `StatementLog.RecordIsWorkedThrough` | src/claude_monitoring/monitor.py:678-745 | A record not seen before makes its session row and issues its inserts and updates in order, all of them or up to the first whose summary raises, and its uuid is then seen |
| `StatementLog.SkippedRecord` | src/claude_monitoring/monitor.py:678-704 | A record whose uuid was seen, or that names no session, leaves the tables alone |
| `TurnView.TurnsPartitionTheSession` | src/claude_monitoring/dashboard_handler.py:1119-1160 | Concatenated turns equal the events from the first prompt on; turns are numbered 1..n, each starts with its only prompt, summarises its events, and carries prefix sums |
| `TurnView.ViewNeverExceedsTheRowIff` | src/claude_monitoring/dashboard_handler.py:1119-1169 | At rest the view's totals do not exceed the session row's if and only if what was lost does not exceed what the view does not show; in particular when nothing was lost |
| `TurnView.ViewAgainstTheRow` | src/claude_monitoring/dashboard_handler.py:1119-1169 | At any moment, whatever interleaves or fails, the row, what is owed to it and what it has lost make up exactly what the view shows, what precedes the first prompt and what was turned away |
| `TurnView.NullTextLosesItsTurn` | src/claude_monitoring/monitor.py:596-600 | A record with a prompt of null text after which the view shows one turn and the row none |
| `TokenDeltas.DeltasAddUpIff` | src/claude_monitoring/dashboard_handler.py:1147-1155 | The token deltas of the turns add up to the total if and only if no usage after the first prompt that carries the figure is followed by another before the next prompt |
| `TokenDeltas.DeltasMissUsages` | src/claude_monitoring/dashboard_handler.py:1147-1155 | Two usages in one turn: the delta shows the second only |
| `TurnView.SessionTurns` | src/claude_monitoring/dashboard_handler.py:1119-1169 | The loop returns the turns and totals of the specification scan |
| `Watchdog.RestartsAreBudgeted` | src/claude_monitoring/lifecycle.py:986-1014 | In every run at most 3 restart attempts and 36 s of backoff fall between resets, and 0 <= consecutive <= restarts <= 3 |
| `Watchdog.ResetsAreEarnedIff` | src/claude_monitoring/monitor.py:2297-2328 | In every run a healthy tick resets the budget if and only if it is at least the third with no death among them |
| `Watchdog.WhatADeathBrings` | src/claude_monitoring/lifecycle.py:440-476 | In every run a tick that is not ignored reports a death exactly when the child is dead; a restart is attempted exactly when fewer than three were since the last reset, after 1, 5 and 30 s in turn, and succeeds exactly when starting does; the exit code is told from the second success on |
| `Watchdog.StopIsHonoured` | src/claude_monitoring/monitor.py:2304-2312 | With whole ticks, after an explicit stop no tick does anything until a start spawns a child; adopting one does not end the stop |
| `Watchdog.ProxyStaysThroughStop` | src/claude_monitoring/lifecycle.py:955-984 | While stopped, and while nobody else switches it, the system proxy goes off if and only if a stop switches it off |
| `WatchdogPause.StopLastsIff` | src/claude_monitoring/lifecycle.py:986-1009 | With the tick cut at the backoff sleep, a stop lasts if and only if it did not meet the watchdog asleep or the restart it woke to spawned no child |
| `WatchdogPause.StopDuringSleepIsUndone` | src/claude_monitoring/lifecycle.py:867-927 | A stop during the sleep is undone by the spawning restart |
| `WatchdogPause.HalvesMakeATick` | src/claude_monitoring/lifecycle.py:440-476 | With nothing in between the two halves are one whole tick |
| `Watchdog.ProxyFollowsRestart` | src/claude_monitoring/lifecycle.py:440-476 | After a death tick whose commands work, the system proxy is on exactly when it was on before and the restart succeeded |
| `Watchdog.ProxyFollowsRestartIff` | src/claude_monitoring/lifecycle.py:440-476 | That outcome in terms of the budget, how starting goes and which commands take effect, both ways |
| `Watchdog.ReportedRestoreIsTrueIff` | src/claude_monitoring/lifecycle.py:455-476 | A reported restore has happened exactly when the proxy was off or not seen, no restart was possible, or the switch on took effect or the switch off did not |
| `Watchdog.RestoredIsReportedRegardless` | src/claude_monitoring/lifecycle.py:468-476 | A switch back on without effect is reported as a restore |
| `Watchdog.ExhaustedStaysDown` | src/claude_monitoring/lifecycle.py:986-993 | With the budget spent and the child dead, every tick gives up without an attempt |
| `Watchdog.ProxyManager.Start` | src/claude_monitoring/lifecycle.py:867-927 | Only spawning clears the stop flag; adopting and failing leave it |
| `Watchdog.ProxyManager.Stop` | src/claude_monitoring/lifecycle.py:955-984 | Sets the stop flag and forgets the child |
| `Watchdog.ProxyManager.Restart` | src/claude_monitoring/lifecycle.py:986-1009 | Refused without effect beyond three attempts, else one backoff, one attempt and the counters |
| `Watchdog.ProxyManager.ResetRestartCount` | src/claude_monitoring/lifecycle.py:1011-1014 | Both counters return to zero and nothing else changes |
| `Watchdog.WatchdogThread.HandleMitmdumpDeathAndRestart` | src/claude_monitoring/lifecycle.py:440-476 | The effect on manager and system proxy, and the report |
| `Watchdog.WatchdogThread.RunTick` | src/claude_monitoring/monitor.py:2299-2328 | One tick as a step of the specification machine |
| `Watchdog.WatchdogThread.StopByUser` | src/claude_monitoring/lifecycle.py:955-984 | Stops the manager and switches the system proxy off unless asked not to, as far as the command has effect |
| `CrashRecovery.RecoveryClearsIffEffective` | src/claude_monitoring/lifecycle.py:686-758 | With a dead monitor the wreckage is gone after one call if and only if ps answered, the orphan could be killed, and the proxy was read and switched off to some effect |
| `CrashRecovery.LiveMonitorIsLeftAlone` | src/claude_monitoring/lifecycle.py:714-757 | With a live monitor nothing is killed, the proxy and the monitor's files stay, and the proxy pid file goes only when it is seen to name no mitmdump |
| `CrashRecovery.OnlyTheOrphanIsKilled` | src/claude_monitoring/lifecycle.py:714-731 | No process but the orphan on file is ever touched |
| `CrashRecovery.SecondCallIsQuiet` | src/claude_monitoring/lifecycle.py:686-758 | A second call reports no fix and reaches a fixpoint |
| `CrashRecovery.StalePidFileRemainsIff` | src/claude_monitoring/lifecycle.py:747-748 | Exactly when a call leaves a proxy pid file that names no live mitmdump |
| `CrashRecovery.LivePidFileIsLostIff` | src/claude_monitoring/lifecycle.py:747-748 | The pid file of a live mitmdump is removed exactly when ps does not answer |
| `CrashRecovery.FilesGoIff` | src/claude_monitoring/lifecycle.py:741-757 | Exactly when heartbeat file, monitor pid file and proxy pid file go: for the heartbeat, a dead monitor and an age beyond 120 s |
| `CrashRecovery.ProcessEndsIff` | src/claude_monitoring/lifecycle.py:714-739 | Exactly which process ends, and when the system proxy goes off |
| `CrashRecovery.FixesTellTheDamage` | src/claude_monitoring/lifecycle.py:704-746 | Exactly when each fix is reported; for the system proxy when it is read as on and the command is launched, whatever its effect |
| `CrashRecovery.ReportIsTrueIff` | src/claude_monitoring/lifecycle.py:735-739 | Every reported fix has come about if and only if the switch has effect where it is launched |
| `CrashRecovery.FalseFixIsRepeated` | src/claude_monitoring/lifecycle.py:735-739 | A switch without effect is reported as a fix by every call, however many there were |
| `CrashRecovery.Host.DisableSystemProxy` | src/claude_monitoring/lifecycle.py:409-424 | Answers true when the command was launched, whatever came of it |
| `CrashRecovery.Host.DetectStaleState` | src/claude_monitoring/lifecycle.py:686-758 | The four cases in order with the two liveness verdicts taken once |
| `CrashRuns.EveryCrashIsReportedIff` | src/claude_monitoring/monitor.py:2797-2886 | Over any run of starts, watchdog restarts, crashes, shutdowns and other programs, crashes are the reported, the pending and the hidden ones; every crash is reported once or pending if and only if no step hid one |
| `CrashRuns.QuietRunsHideNothing` | src/claude_monitoring/lifecycle.py:741-745 | When no monitor is superseded and no other process gets the pid on the monitor's pid file, no crash goes unreported |
| `CrashRuns.ReusedPidHidesTheCrash` | src/claude_monitoring/lifecycle.py:172-187 | A concrete run in which a crash is never reported |
| `CrashRuns.AtMostOneProxyIff` | src/claude_monitoring/lifecycle.py:867-927 | Through a whole run, watchdog restarts included, at most one spawned mitmdump is alive if and only if no start and no restart goes ahead beside a live one it does not see on file |
| `CrashRuns.OnFileIsOverlookedIff` | src/claude_monitoring/lifecycle.py:881-884 | A live mitmdump that is on file is overlooked exactly when ps does not answer |
| `CrashRuns.AtMostOneProxy` | src/claude_monitoring/lifecycle.py:867-927 | So when ps answers every start and restart and shutdowns stop the mitmdump there is, at most one is ever alive, and it is the one on the pid file |
| `CrashRuns.StartWithoutPsSpawnsAnother` | src/claude_monitoring/lifecycle.py:881-884 | When ps fails a start overlooks the mitmdump on file and spawns a second one |
| `CrashRuns.StartGoesAheadIff` | src/claude_monitoring/lifecycle.py:867-927 | A start changes nothing exactly while a live monitor owns the pid file with a heartbeat of at most 120 s; otherwise it leaves a live monitor and a live mitmdump on file |
| `CrashRuns.RestartBringsAProxy` | src/claude_monitoring/lifecycle.py:986-1009 | A restart leaves a live mitmdump on file |
| `CrashRuns.ShutdownCleansUp` | src/claude_monitoring/lifecycle.py:955-984 | A shutdown leaves no pid file and no monitor, the proxy off as far as the command has effect, and every process but the monitor and, if it may be signalled, its own mitmdump or else the one on file |
| `Orphans.DiesIffProvablyOrphan` | src/claude_monitoring/lifecycle.py:291-373 | Whatever probes fail, a process dies exactly when it is a listed, signalable, unexcluded live mitmproxy that provably has no monitor for a parent |
| `Orphans.FailedProbesOnlySpare` | src/claude_monitoring/lifecycle.py:190-247 | A probe that fails can only spare processes |
| `Orphans.ReturnedMayHaveSurvived` | src/claude_monitoring/lifecycle.py:341-373 | A returned pid is still alive exactly when it could not be signalled |
| `Orphans.VictimsAreExact` | src/claude_monitoring/lifecycle.py:318-338 | The listing loop selects exactly the listed pids that qualify |
| `Orphans.MitmdumpIsRecognised` | src/claude_monitoring/lifecycle.py:268-288 | Any command that holds mitmdump, in any case and with anything around it, is a mitmproxy's |
| `Orphans.StartedMonitorIsRecognised` | src/claude_monitoring/lifecycle.py:190-247 | Any command that holds ai-monitor and then --start, in any case, is a started monitor's |
| `Orphans.ChildrenOfMonitorsSurvive` | src/claude_monitoring/lifecycle.py:190-247 | Whatever probes fail, a process whose parent lives and was started as a monitor survives |
| `Orphans.UnstartedMonitorIsNot` | src/claude_monitoring/lifecycle.py:190-247 | No command without an option is a started monitor's |
| `Text.EqualInLowerIff` | src/claude_monitoring/lifecycle.py:190-247 | Two texts agree in lower case if and only if they agree up to the case of letters |
| `Orphans.IsChildOfRunningMonitor` | src/claude_monitoring/lifecycle.py:190-247 | True for every monitor's child, and else only when a probe leaves it open |
| `Orphans.FindOrphanMitmproxyOnPort` | src/claude_monitoring/lifecycle.py:291-338 | Returns the victims in listing order, and none when the listing fails |
| `Orphans.ProcessTable.KillOrphanMitmproxy` | src/claude_monitoring/lifecycle.py:341-373 | Removes exactly the victims that may be signalled, by SIGTERM or SIGKILL |
| `ScanSlot.SlotIsExclusive` | src/claude_monitoring/dashboard_handler.py:2431-2515 | For any number of handlers, at most one request owns the slot; scanning needs the lock; a final status is the one its last runner earned; done means a scan ran under the lock and returned 0 |
| `ScanOutcomes.ExitIsEarnedIff` | src/claude_monitoring/discovery_scheduler.py:198-256 | In every run a request ends with 0 exactly when its scan ended without raising, with 2 exactly when the scan raised, with 1 exactly when it met a held scan lock, and with an exception exactly when there was one |
| `ScanOutcomes.StatusTellsTheLastScan` | src/claude_monitoring/dashboard_handler.py:2431-2515 | A final status is done exactly when the scan of the request that reported last was completed, skipped exactly when that one met a held lock, and error in every other case; idle means nobody reported |
| `ScanOutcomes.RequestIsLetInIff` | src/claude_monitoring/dashboard_handler.py:2431-2460 | In every run a request is let in if and only if no other has the slot and it read no open row, and it then has the slot alone |
| `ScanSlot.RunningMeansLiveIffEveryThreadStarted` | src/claude_monitoring/dashboard_handler.py:2438-2506 | In every run, the status is running exactly when some request has a live runner or is about to start its thread, if and only if no thread failed to start |
| `ScanSlot.StuckIffAStartFailed` | src/claude_monitoring/dashboard_handler.py:2458-2506 | A slot is stuck exactly when some start of a thread failed |
| `ScanSlot.LiveRequestCanFinish` | src/claude_monitoring/dashboard_handler.py:2475-2504 | Every request that has a runner or is about to start one can reach its report by steps of its own, whatever the others hold, and the slot is then free |
| `ScanSlot.EveryReportIsFinal` | src/claude_monitoring/dashboard_handler.py:2475-2504 | Every reporting runner leaves done, skipped_lock_held or error, by its exit alone |
| `ScanSlot.FailedStartKeepsTheSlot` | src/claude_monitoring/dashboard_handler.py:2458-2506 | When the thread cannot be started the slot stays running for ever and every later request is refused |
| `ScanSlot.DiscoveryScanState.TryAcquire` | src/claude_monitoring/dashboard_handler.py:2438-2473 | Accepts exactly when neither the flag nor the durable row says a scan runs, and only then changes the state |
| `ScanSlot.DiscoveryScanState.Finish` | src/claude_monitoring/dashboard_handler.py:2484-2504 | The final status, exit code and error for each way run_discover can end |
| `GateSoundness.CleanScanReachesAllowedHosts` | scripts/check_privacy_no_telemetry.py:289-332 | When the scan reports nothing, every client call, under every form of import and without shadowing, uses a URL with an allowed host whatever the run-time values, provided the gate reads the argument used, its literal closes its authority and its wrappers are genuine |
| `GateSoundness.AcceptedLiteralIsSafeIffClosed` | scripts/check_privacy_no_telemetry.py:219-253 | An accepted literal keeps every continuation on allowed hosts if and only if it closes its authority |
| `GateSoundness.LiteralIsPrefix` | scripts/check_privacy_no_telemetry.py:219-253 | With genuine wrappers the leftmost literal is a prefix of the URL's value in every environment |
| `GateSoundness.LiteralIsPrefixIffGenuine` | scripts/check_privacy_no_telemetry.py:219-253 | It is a prefix in every environment if and only if it is empty or every wrapper looked through denotes urllib.request.Request |
| `GateSoundness.ClientCallIsChecked` | scripts/check_privacy_no_telemetry.py:289-332 | Every call that denotes a client call has a literal with an allowed host when the scan reports nothing |
| `GateExact.CallIsSafeIff` | scripts/check_privacy_no_telemetry.py:219-253 | A client call reaches an allowed host in every environment if and only if the constant part of the URL it uses has one, and either nothing follows it or it closes its authority |
| `GateExact.WholeLiteralIsSafe` | scripts/check_privacy_no_telemetry.py:219-253 | A wholly literal URL that the gate passes and reads is safe even with an open authority |
| `GateLimits.GateSufficesIffItReadsTheUrl` | scripts/check_privacy_no_telemetry.py:189-216 | For each client call and number of positional arguments, a clean scan with closed literals and genuine wrappers is enough if and only if the call is not one that takes the method first or has no positional argument |
| `GateLimits.MethodIsTakenForTheUrl` | scripts/check_privacy_no_telemetry.py:206-208 | A program that passes although its requests.request goes to a host that is not allowed |
| `GateLimits.CallReachesIffGenuine` | scripts/check_privacy_no_telemetry.py:249-252 | A passed call with a closed literal that the gate reads reaches an allowed host in every environment if and only if its wrappers are genuine |
| `GateLimits.ForeignWrapperPasses` | scripts/check_privacy_no_telemetry.py:256-275 | A program that passes although its URL is whatever a foreign Request makes of it |
| `GateSoundness.NameIsRight` | scripts/check_privacy_no_telemetry.py:121-186 | The resolved dotted name is what the callee denotes, for every form of import |
| `GateAcceptance.VerdictIff` | scripts/check_privacy_no_telemetry.py:289-332 | A call of a client function is passed if and only if the leading text of its URL names an allowed host, and otherwise reported once, for the one reason that fits |
| `GateAcceptance.ReportIsExact` | scripts/check_privacy_no_telemetry.py:289-332 | The scan of a program reports exactly the client calls in it that deserve it, each at its line, under its resolved name and for its reason |
| `GateAcceptance.IsPassedIff` | scripts/check_privacy_no_telemetry.py:289-332 | A program is passed if and only if every client call in it visibly goes to an allowed host |
| `GateAcceptance.LeadsToIff` | scripts/check_privacy_no_telemetry.py:219-253 | The leftmost literal is the text at the end of the path down left operands and wrapped arguments: a string, or the first part of an f-string if that names a host |
| `GateAcceptance.NamesUrlIff` | scripts/check_privacy_no_telemetry.py:205-216 | The URL argument is the first positional one, else the first that is called url |
| `GateAcceptance.WrapsUrlIff` | scripts/check_privacy_no_telemetry.py:256-275 | A call is looked through exactly when it has an argument and is written Request(...) or urllib.request.Request(...), on whatever object |
| `GateAcceptance.AppendingIsHarmless` | scripts/check_privacy_no_telemetry.py:234-235 | Appending anything to a URL changes nothing about the verdict |
| `GateAcceptance.PlainUrlIsAcceptable` | scripts/check_privacy_no_telemetry.py:289-332 | An ordinary https URL of an allowed host is accepted |
| `PrivacyGate.BuildAliasMap` | scripts/check_privacy_no_telemetry.py:121-154 | The loop computes the alias map of the visited nodes, later imports winning |
| `PrivacyGate.DottedCallName` | scripts/check_privacy_no_telemetry.py:157-186 | Collecting attributes outwards and joining in reverse yields the dotted name, or none off a name |
| `PrivacyGate.ExtractUrlLiteral` | scripts/check_privacy_no_telemetry.py:189-216 | The literal of the first positional argument, else of the first url= argument |
| `PrivacyGate.ScanFile` | scripts/check_privacy_no_telemetry.py:289-332 | The violations of every call in visiting order, or one for a syntax error |
| `Urls.ClosedAuthorityIsSettled` | scripts/check_privacy_no_telemetry.py:278-286 | Text after a closed authority never changes the hostname |
| `Urls.OpenAuthorityIsUnsettled` | scripts/check_privacy_no_telemetry.py:278-286 | A URL with an open authority can be continued to any host name |
| `Urls.OpenAuthorityIsDiverted` | scripts/check_privacy_no_telemetry.py:278-286 | For every text with an open authority there is a continuation that leads elsewhere whatever follows it |
| `Urls.PlainUrl` | scripts/check_privacy_no_telemetry.py:278-286 | The hostname of an ordinary https URL is the host written in it |
| `Urls.HostBeforePort` | scripts/check_privacy_no_telemetry.py:278-286 | User information and a port are no part of the hostname |
| `Urls.HostInBrackets` | scripts/check_privacy_no_telemetry.py:278-286 | The hostname of a bracketed authority is what the brackets hold |
| `Urls.UnmatchedBracket` | scripts/check_privacy_no_telemetry.py:278-286 | A bracket without its partner yields no hostname |
| `PythonTree.WalkVisits` | scripts/check_privacy_no_telemetry.py:299 | The breadth-first walk visits every node of the tree |
| `PythonTree.PartsAreChildren` | scripts/check_privacy_no_telemetry.py:299 | For each kind of node, exactly which parts the walk goes on to |
| `InstallRoundTrip.RoundTripIff` | src/claude_monitoring/supply_chain.py:339-463 | For npm, yarn, pnpm, pip, cargo, go, gem, brew and apt: a printed list of packages is read back in order if and only if no install pattern occurs inside the printed command and each of its tokens can be read back |
| `PrintedTokens.TokenIsReadBackIff` | src/claude_monitoring/supply_chain.py:409-463 | For every manager, name, name@version or name==version yields name, version and pin if and only if: it is no noise word and, for npm, yarn, pnpm and go, the version holds no at-sign and looks like no shell assignment, or without a version there is no scope; the other managers know no versions |
| `PrintedTokens.SplitPinnedIff` | src/claude_monitoring/supply_chain.py:444-446 | name@version is split at the right place if and only if the version holds no at-sign |
| `PrintedTokens.ScopedPinnedIff` | src/claude_monitoring/supply_chain.py:439-443 | The same for @scope/name@version |
| `PrintedTokens.UnpinnedScopeIsDropped` | src/claude_monitoring/supply_chain.py:436-447 | A scoped name without a version yields no package |
| `PrintedTokens.OperatorIsRead` | src/claude_monitoring/supply_chain.py:449-454 | For pip each of the five operators is read, with the version behind it |
| `PrintedTokens.ValidIffClean` | src/claude_monitoring/supply_chain.py:271-299 | The names accepted, by their characters |
| `InstallRoundTrip.EmbeddingLosesPackages` | src/claude_monitoring/supply_chain.py:330-336 | With an embedded pattern fewer packages come back |
| `InstallRoundTrip.DjangoGetmacIsMisread` | src/claude_monitoring/supply_chain.py:330-336 | A concrete command of two ordinary names that loses one |
| `InstallRoundTrip.ArgumentsAreRead` | src/claude_monitoring/supply_chain.py:373-433 | Switches and flag-value pairs anywhere between packages change nothing, and each -r and -e of pip stands for one package |
| `InstallRoundTrip.ReturnedNamesAreValid` | src/claude_monitoring/supply_chain.py:271-299 | Every name returned for any command passes the validity test |
| `InstallRoundTrip.ReturnedPackagesAreProper` | src/claude_monitoring/supply_chain.py:339-433 | Every package returned for any command has a name of name characters only, with a slash only in a scope or on github.com, and no noise word, or stands for one of pip's files; npx alone may name something in parentheses |
| `ShellCommands.FirstInstallDecides` | src/claude_monitoring/supply_chain.py:315-327 | Of two commands joined by a shell operator the first that contains an install pattern decides, and the other changes nothing |
| `ShellCommands.StderrRedirectIsIgnored` | src/claude_monitoring/supply_chain.py:324 | Sending errors elsewhere, at the end of the command or between its words, changes nothing about the packages |
| `ShellCommands.StdoutRedirectIsIgnored` | src/claude_monitoring/supply_chain.py:325 | Neither does sending the output to a file |
| `ShellCommands.WrapperIsDropped` | src/claude_monitoring/supply_chain.py:330-336 | What stands before the install command is dropped, for any text that holds no pattern |
| `ShellCommands.WrappedCommand` | src/claude_monitoring/supply_chain.py:330-336 | A wrapped command yields the packages of the command itself |
| `ShellCommands.WordsAreSeparated` | src/claude_monitoring/supply_chain.py:363 | Any white space separates words, however much there is of it |
| `ShellCommands.WordIsOneToken` | src/claude_monitoring/supply_chain.py:363 | A text without white space is one word |
| `ShellCommands.NpxRunsTheFirst` | src/claude_monitoring/supply_chain.py:366-371 | npx yields exactly the first word that is no flag, no noise and a valid name |
| `InstallParser.ParseTokens` | src/claude_monitoring/supply_chain.py:373-433 | The token loop with its skip flag equals the recursive reading |
| `InstallParser.ParseInstallCommand` | src/claude_monitoring/supply_chain.py:339-433 | Segment isolation, prefix stripping, manager choice and tokens, for every string |
| `Cleanup.TwoRunsReachAFixpoint` | src/claude_monitoring/cleanup.py:204-232 | From any browser rows two runs reach a state that further runs leave alone, reporting zero |
| `Cleanup.ThirdRunIsIdle` | src/claude_monitoring/cleanup.py:204-232 | From any database, rows and sessions together, the third run changes no table and reports zero removals and hashes |
| `Cleanup.CleanUpThrice` | src/claude_monitoring/cleanup.py:176-232 | Three clean-ups in a row: the last reports zero and leaves what the second left |
| `Cleanup.OneRunIsEnoughIff` | src/claude_monitoring/cleanup.py:204-232 | One run is enough if and only if no hash it fills in collides with a row it kept |
| `Cleanup.OneRunIsEnoughWhenHashed` | src/claude_monitoring/cleanup.py:204-232 | With every hash present, one run only removes duplicates and is enough |
| `Cleanup.OneRunCanLeaveDuplicates` | src/claude_monitoring/cleanup.py:204-232 | A database whose first clean-up leaves duplicates, for every digest |
| `Cleanup.DryHashCountIff` | src/claude_monitoring/cleanup.py:204-210 | The dry run announces at least the hashes a real run fills in, and as many if and only if every row without a hash has text and is no duplicate |
| `Cleanup.DryRunAnnouncesTooMany` | src/claude_monitoring/cleanup.py:104-112 | Two databases for which it announces too many: a duplicate and an empty text |
| `Cleanup.EachClassKeepsItsFirst` | src/claude_monitoring/cleanup.py:115-125 | With every hash present, each class of captures keeps exactly its least id, unchanged |
| `Cleanup.RowSurvivesIff` | src/claude_monitoring/cleanup.py:49-82 | By columns: a capture is kept if and only if it has content and no earlier capture with content agrees in conversation, type and hash; a visit if and only if no earlier one agrees in URL and minute; every other row always |
| `Cleanup.SurvivorIs` | src/claude_monitoring/cleanup.py:156-173 | A kept row is unchanged but for a missing hash of a text that is not empty, which is the digest of its first 200 characters |
| `Cleanup.SessionSurvivesIff` | src/claude_monitoring/cleanup.py:141-153 | By columns: a session is kept if and only if it has turns or an unknown count, tokens, a title or an event |
| `Cleanup.DryRunTellsTheRemovals` | src/claude_monitoring/cleanup.py:204-232 | The removals a dry run announces are exactly the captures, visits and sessions that are there before a real run and not after it |
| `Cleanup.VisitsAreUntouched` | src/claude_monitoring/cleanup.py:68-82 | Removing captures does not change which visits are duplicates |
| `Cleanup.SessionsReachAFixpoint` | src/claude_monitoring/cleanup.py:141-153 | No empty session is left to remove after one removal |
| `Cleanup.Database.RunCleanup` | src/claude_monitoring/cleanup.py:176-232 | A dry run changes nothing and counts what a real run would remove; a real run reports its removals and conserves row totals |
| `Cleanup.Database.RemoveDuplicateCaptures` | src/claude_monitoring/cleanup.py:115-125 | Removes exactly the duplicate captures and counts them |
| `Cleanup.Database.RemoveDuplicateVisits` | src/claude_monitoring/cleanup.py:128-138 | Removes exactly the duplicate visits and counts them |
| `Cleanup.Database.RemoveEmptySessions` | src/claude_monitoring/cleanup.py:141-153 | Removes exactly the sessions without turns, tokens, title and events |
| `Cleanup.Database.BackfillContentHashes` | src/claude_monitoring/cleanup.py:156-173 | Hashes every row with text and no hash, in any order, and counts them |
| `ProcessTree.CollectPids` | src/claude_monitoring/privacy_audit.py:270-292 | The frontier loop terminates on every parent map, cyclic ones included, with exactly the roots and their transitive descendants |
| `ProcessTree.LogIsTheSetOfObservations` | src/claude_monitoring/privacy_audit.py:384-399 | Over any cycles the log holds each observed connection once and nothing else |
| `ProcessTree.UnseenIsExact` | src/claude_monitoring/privacy_audit.py:392-398 | One cycle records exactly the new observations, each once |
| `ProcessTree.RecordCycle` | src/claude_monitoring/privacy_audit.py:388-398 | The loop appends the unseen observations in order |
| `LiveFeed.FeedIsSound` | src/claude_monitoring/monitor.py:316-333 | In every interleaving of the two critical sections the seen set holds at most 1000 hashes, the hashes accepted fall into runs between clears without a repeat, the one that causes the clear included, and the feed is the last 500 events appended |
| `LiveFeed.StartIsSound` | src/claude_monitoring/monitor.py:89-91 | The empty feed satisfies the invariant |
| `LiveFeed.RefusedIffAcceptedInEpoch` | src/claude_monitoring/monitor.py:324-328 | An event is refused exactly when its hash was accepted since the last clear |
| `LiveFeed.OverflowForgetsTheLast` | src/claude_monitoring/monitor.py:328-330 | The clear forgets the hash that caused it, which is then accepted again |
| `LiveFeed.Feed.CheckAndMark` | src/claude_monitoring/monitor.py:325-330 | The first critical section |
| `LiveFeed.Feed.Append` | src/claude_monitoring/monitor.py:331-333 | The second critical section keeps the most recent 500 |
| `StreamLogger.ChunkingIndependence` | src/claude_monitoring/lifecycle.py:80-105 | However a text is cut into writes, log and buffer end as after one write |
| `StreamLogger.FreshLoggerLogsTheText` | src/claude_monitoring/lifecycle.py:80-105 | The log is the non-blank complete lines right-stripped, the buffer the text after the last newline, and a flush adds exactly that |
| `StreamLogger.StreamToLogger.Write` | src/claude_monitoring/lifecycle.py:92-100 | The loop over newlines, as a function of the old buffer and the data |
| `StreamLogger.StreamToLogger.Flush` | src/claude_monitoring/lifecycle.py:102-105 | Logs a non-blank remainder and empties the buffer |
| `StreamLogger.LineIsLogged` | src/claude_monitoring/lifecycle.py:92-100 | A line is logged if and only if it is not all white space, up to its last other character |
| `Escaping.RowRoundTrip` | src/claude_monitoring/exports.py:161-183 | A printed table row splits at its unescaped pipes into the original cells up to line breaks |
| `Escaping.RowIsOneLine` | src/claude_monitoring/exports.py:161-183 | No cell can break its row in two |
| `Escaping.MdEscapeIsPerCharacter` | src/claude_monitoring/exports.py:180-183 | The four replacement passes equal one substitution per character |
| `Escaping.PrintRow` | src/claude_monitoring/exports.py:161-163 | The loop prints the row |
| `Escaping.LiteralRoundTrip` | src/claude_monitoring/lifecycle.py:1392-1400 | An escaped string never closes its AppleScript literal early and decodes to the original |
| `Escaping.AppleEscapeIsPerCharacter` | src/claude_monitoring/lifecycle.py:1400 | The two replacement passes equal one substitution per character |
| `TrafficDedup.RequestsAreShownOnce` | src/claude_monitoring/dashboard_handler.py:1983-1998 | Every request is listed exactly once, with a latency whenever any of its rows has one |
| `TrafficDedup.AnonymousRowsStay` | src/claude_monitoring/dashboard_handler.py:1996-1998 | Rows without a request id are all listed, as often as they occur |
| `TrafficDedup.UniqueCalls` | src/claude_monitoring/dashboard_handler.py:1983-1998 | The loop lists the heads of the requests in order, each replaced by its first row with a latency |
| `TrafficDedup.UniqueIsExact` | src/claude_monitoring/dashboard_handler.py:1983-1998 | The list has one entry for each request and each row without an id, in the order of their first rows, and shows the first row with a latency, or the first row when there is none |

## Left out

- BrowserIngest.BrowserStore.Ingest: failed inserts and events without a timestamp (the extension always sends one) are left out, as are alerts and live-feed pushes; check and insert of one event are one step, so two handler threads interleave between events only.
- CaptureQueue.SerialDeliveryKeepsOrder: asks that the server does not go on with a request after it failed; DeliveryOrder has the exact condition without that.
- Masking of credentials, digests, and SQLite's date arithmetic are arbitrary functions; that distinct texts may share a digest is therefore included.
- The JavaScript clock readings are arbitrary integers; badge texts, storage of daily counts, heartbeats and DOM scraping are left out.
- Transcript files only grow in the runs (a single read copes with a shorter file): replacement and undecodable bytes are left out, offsets count characters, and a line is identified with its text without outer white space. JSON decoding is left out.
- TailingCrashes: handling a record is one step; Sessions has its single statements. A lost connection or a failing save of the offset is left out.
- Sessions.SessionWatcher.ProcessRecord: a record is the list of its inserts and updates; how they are derived from its shape, OpenClaw normalisation, models, titles and working directories are left out. Token counters are not negative.
- TurnView.ViewAgainstTheRow: the dashboard's two queries are one moment. The prompt preview is left out.
- Watchdog.ProxyManager.Start: the adoption test, orphan clean-up and spawning are one outcome of three; Orphans and CrashRuns model them.
- Watchdog.ProxyManager.Stop: signalling the child and removing its pid file are left out here; StopByUser adds the system proxy.
- Watchdog: a tick is one step; WatchdogPause cuts it at the sleep. Heartbeat writing is left out.
- CrashRecovery.Host.DetectStaleState: unreadable files, failing deletions, processes that survive SIGKILL and the crash table are left out.
- CrashRuns: a start is one step, of which AbortedStart is the part before the monitor begins; which mitmdumps on the port a start clears is an outcome, decided in Orphans. The restart budget is left to Watchdog.
- Orphans: one snapshot of the process table per call; pids are not reused meanwhile.
- ScanSlot: the scan itself, progress fields, the scheduler's sleeping and deferral log, and crash finalisation of durable rows are left out; the durable row is an arbitrary answer, and the scan lock has at most one holder. discovery_scheduler_loop appears as an outside holder of that lock.
- GateSoundness.CleanScanReachesAllowedHosts: a name imported with two meanings is excluded (a documented limit of the gate), as are star and relative imports and calls on session objects; equal expressions have equal run-time values; a URL passed through `**` is not followed.
- Urls: urlparse's removal of control characters, its checks of bracket contents and of Unicode normalisation are left out; host names fold ASCII letters only.
- InstallParser: `\w` and letter case are ASCII in redirects and names, and a name regex's `$` does not match before a final newline (tokens contain none). Risk scores, typosquat lists and storage are left out.
- InstallRoundTrip.RoundTripIff: pip packages are printed unpinned or pinned with == (PrintedTokens.OperatorIsRead has the other operators); the patterns "npm i " and "npx " are not printed.
- ShellCommands.FirstInstallDecides: asks that the first command holds no single & either.
- Cleanup: SQLite sessions with a NULL id, the backup copy and the closing of the connection are left out; a visit's minute is a value.
- ProcessTree: parsing of ps and lsof output (including _parse_lsof_name and _split_host_port) is left out, being a single-branch split.
- Escaping: only the asset rows and their escaping; the other parts of the Markdown report, JSON and CSV are left out.
- TrafficDedup: filters, sorting and paging of the query are left out.
- HTTP, authentication, dashboard pages, certificate handling, service installation, secret patterns and reports are left out: they hold no property that spans operations.
