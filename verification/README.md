# Senqo: verified models of its state-keeping cores

Senqo is an AI agent platform for WhatsApp. Most of it moves rows in and out of a database; this
project models the parts that decide something hard in code, and proves what those parts promise:

- **AgentHistory** – the sanitiser that turns any stored transcript into one a model provider accepts.
  Its three passes only work together: pass one's uniqueness is what makes pass three's unordered set
  test mean ordered pairing. **HistoryPlaces** tells from places of the input alone what is kept, and
  **HistorySanitizer** holds the source's loops.
- **SourceScanner** and **ToolSource** – the character scanner that finds the end of an expression,
  proved against two token grammars with printers, and the removal of legacy exports built on it.
- **MessageDedupe** and **MessageSession** – the webhook de-duplication tracker and the interleaved
  message handlers over it.
- **RateLimit** and **LoginThrottle** – time-windowed, bounded stores, over all runs with a
  non-decreasing clock.
- **MessagePaging** – two cursor-paged readers against the plain sorted list.
- **ToolFailures** – which custom tools are failing, and in which order they began to.
- **KnowledgeSources** and **KnowledgePlaces** – the de-duplicated catalog of citable knowledge and its
  resolution, and which item stands where and is cited by what.
- **StorageAccounting** – a workspace's byte counter under interleaved uploads and deletes.
- **LidMapping** and **LidSources** – the per-connection LID to phone-number maps and the resolution
  pipeline, and what each source of a phone id gives.

`OrderedMap` is a JavaScript `Map` as a sequence of entries in insertion order; `JsString` holds
`indexOf` and `trim`; `Options` and `Sequences` are small helpers.

Each module follows the same plan. The source's stateful code is a class or a method with its loops;
its `ensures` equate the new state and the result with a specification function of the old state. The
lemmas then prove, for every input or every run, what the source promises about those functions,
against an independent reference: a grammar, a grouping of the run into windows, a plain sorted list,
the last verdict of a key, the bytes actually stored, or the places of the input themselves.

Some properties one might read into the source do not always hold; each is stated with its exact bound or
condition:

- In any half-open fifteen minutes at most **18** failed logins are recorded for one key
  (`LoginThrottle.AtMostEighteen`), and 18 is reached (`LoginThrottle.EighteenReached`).
- Sanitising and the last-resort scrub change places exactly when no orphaned call gains its results by
  passing over dropped boundary messages (`AgentHistory.OrdersAgreeExactly`).
- The reverse phone map is the inverse of the forward one, throughout, exactly when no LID was tried with
  two phones and no phone with two LIDs (`LidMapping.InverseThroughoutExactly`).
- Cursors cut to milliseconds give the plain sorted list exactly when, counting that list off in pages
  from the newest row, no page ends at a row that shares its millisecond with the next one, unless that
  one stands at the start of the millisecond with a smaller id (`MessagePaging.CutPagingExactly`).
- Rows arriving between fetches disturb a reader exactly when one is older than the cursor then in force
  (`MessagePaging.ArrivalsChangeNoPageExactly`).
- The byte counter stays right exactly when every step returns what leaves
  (`StorageAccounting.BytesConserved`); the catalog answers as its raw list exactly when no two names
  share a key (`KnowledgeSources.TransparentExactly`).

Where code and comments disagree the model follows the code: `whatsapp/src/lid-resolve.ts:57-64` lists
the signal store before the learned map, the code asks the learned map first.

## Model

| member | source | states |
|---|---|---|
| `AgentHistory.DedupCount` | backend/src/agent/messages.ts:127-154 | after pass one every non-empty call or result key of the input, not seen before, occurs exactly once in the whole history; no reasoning part and no emptied message remains |
| `AgentHistory.DedupFixedIff` | backend/src/agent/messages.ts:127-154 | pass one leaves a history alone if and only if it has no reasoning part, no empty part list, and no key twice |
| `AgentHistory.PruneKeepsWindow` | backend/src/agent/messages.ts:65-101 | dropping orphaned assistant messages never narrows the result window of the messages before them |
| `AgentHistory.PruneAnswers` | backend/src/agent/messages.ts:59-101 | after pass two every remaining call, an empty id never, is resolved in a tool message before the next user or system message; pass two changes nothing exactly when that already held |
| `AgentHistory.CleanKeepsWindow` | backend/src/agent/messages.ts:171-186 | pass three cuts every window to the surviving ids and loses no call |
| `AgentHistory.CleanLaws` | backend/src/agent/messages.ts:171-186 | after pass three tool messages hold only results with a surviving call, no key became more frequent, and no emptied message is left |
| `AgentHistory.PairingIff` | backend/src/agent/messages.ts:158-186 | with unique keys, the source's unordered set test plus resolved windows is equivalent to ordered pairing, both ways, within one turn |
| `AgentHistory.SanitizeWellFormed` | backend/src/agent/messages.ts:65-189 | for every history the sanitised one has unique keys, no junk, and pairs each call with a later result and each result with an earlier call with no user or system message between |
| `AgentHistory.SanitizeFixedPoint` | backend/src/agent/messages.ts:121-189 | sanitising changes nothing if and only if the history is well formed |
| `AgentHistory.SanitizeIdempotent` | backend/src/agent/messages.ts:117-189 | sanitising on every load gives the same history again |
| `AgentHistory.StripOfSanitized` | backend/src/agent/messages.ts:200-239 | the last-resort scrub of a sanitised history is well formed and a fixed point of both functions |
| `AgentHistory.StripWidens` | backend/src/agent/messages.ts:207-239 | the scrub loses no tool id and only widens windows, because it can drop boundary messages |
| `AgentHistory.StripDedup` | backend/src/agent/messages.ts:127-154 | the scrub commutes with pass one |
| `AgentHistory.StripPrune` | backend/src/agent/messages.ts:65-101 | the scrub commutes with pass two when it changes no verdict on an assistant message |
| `AgentHistory.StripClean` | backend/src/agent/messages.ts:171-186 | the scrub commutes with pass three |
| `AgentHistory.Rescued` | backend/src/agent/messages.ts:65-101 | otherwise some call survives pass two after the scrub that does not survive it before |
| `AgentHistory.OrdersAgreeExactly` | backend/src/agent/messages.ts:121-239 | for every history, scrubbing then sanitising equals sanitising then scrubbing if and only if, after pass one, no orphaned call gains its results by passing over boundary messages with nothing replayable |
| `AgentHistory.OrdersAgreeWhenAnchored` | backend/src/agent/messages.ts:121-239 | the orders agree whenever each user or system message is plain or holds a replayable part that is no keyed tool part |
| `AgentHistory.StripThenSanitizeDiffers` | backend/src/agent/messages.ts:207-239 | an instance where the orders differ: a call and its result parted by a user message that the scrub drops |
| `AgentHistory.DedupSplit` | backend/src/agent/messages.ts:124-154 | pass one over two stretches with disjoint ids around a plain user message works on each alone |
| `AgentHistory.CleanSplit` | backend/src/agent/messages.ts:158-186 | pass three over two separated stretches uses only each stretch's own surviving ids |
| `AgentHistory.TurnLocality` | backend/src/agent/messages.ts:65-189 | sanitising h1, a plain user message and h2 with disjoint tool ids is sanitising h1 and h2 apart |
| `AgentHistory.AppendInbound` | backend/src/agent/messages.ts:65-189 | appending the new inbound message keeps a clean history clean |
| `AgentHistory.ReplayVanishes` | backend/src/agent/messages.ts:112-114 | a replay of steps already seen leaves no tool part behind |
| `AgentHistory.SkeletonSanitize` | backend/src/agent/messages.ts:121-189 | within one run the tool parts that survive depend on the tool parts alone |
| `AgentHistory.SnapshotsDedup` | backend/src/agent/messages.ts:112-154 | pass one reduces cumulative step snapshots to the tool parts of the run stored once |
| `AgentHistory.SnapshotRecovery` | backend/src/agent/messages.ts:103-189 | poisoned-session recovery: sanitising cumulative snapshots keeps the same calls and results, in the same order and grouping, as sanitising the run stored once |
| `AgentHistory.SessionRecovery` | backend/src/agent/messages.ts:103-189 | a whole poisoned session recovers: for any list of inbound messages and runs with tool ids of their own, sanitising what was stored as snapshots keeps the same calls and results, in the same order and grouping, as sanitising each run stored once |
| `HistoryPlaces.DedupExactly` | backend/src/agent/messages.ts:127-154 | pass one by places of the input: which messages are left, with which roles, and of each which parts, by what occurs earlier |
| `HistoryPlaces.WindowIsPlaces` | backend/src/agent/messages.ts:73-96 | a result is in the window of a place exactly when a tool message with a fresh copy of it comes before the next user or system message that is not emptied |
| `HistoryPlaces.SurvivingIsPlaces` | backend/src/agent/messages.ts:158-169 | an id survives pass two exactly when some assistant message at some place holds it fresh and all calls there are answered |
| `HistoryPlaces.SanitizeExactly` | backend/src/agent/messages.ts:65-189 | for every history, the sanitised one holds at increasing places exactly the messages that are plain, or are answered in full and keep a part; each has its role, its plain content, and otherwise exactly its parts that are no reasoning, occur nowhere earlier, and are no tool-message result without a surviving call |
| `HistoryPlaces.StripPartsExactly` | backend/src/agent/messages.ts:218-232 | of the parts of a message exactly the text, image, file, call and result parts survive the scrub, in order, with their bodies and ids and without provider options |
| `HistoryPlaces.StripExactly` | backend/src/agent/messages.ts:200-239 | the scrub by places: exactly the messages that are plain or have a replayable part, with their roles, plain contents and replayable parts |
| `HistorySanitizer.KeepPart` | backend/src/agent/messages.ts:134-150 | a part is kept exactly when it is no reasoning and its key was not seen; the two id sets then hold exactly the keys seen |
| `HistorySanitizer.FilterFresh` | backend/src/agent/messages.ts:134-150 | the filter over one message computes the fresh parts and records all its keys |
| `HistorySanitizer.DedupeMessage` | backend/src/agent/messages.ts:128-154 | one turn of the first loop: a plain message as it is, another with its role and its fresh parts, or nothing |
| `HistorySanitizer.DedupeToolParts` | backend/src/agent/messages.ts:124-154 | the first loop leaves, at increasing places of the input, exactly the messages that are plain or have a fresh part, with their roles and fresh parts |
| `HistorySanitizer.IsOrphaned` | backend/src/agent/messages.ts:73-96 | the forward scan reports exactly whether some call id is missing from the window |
| `HistorySanitizer.PruneOrphanedToolCalls` | backend/src/agent/messages.ts:65-101 | the two loops compute pass two |
| `HistorySanitizer.SurvivingCallIds` | backend/src/agent/messages.ts:158-169 | the loop collects exactly the string call ids of assistant messages |
| `HistorySanitizer.DropUncalledResults` | backend/src/agent/messages.ts:171-186 | the last loop computes pass three |
| `HistorySanitizer.SanitizeAgentHistory` | backend/src/agent/messages.ts:121-189 | the whole function computes the composed passes; its result is well formed and holds, at increasing places of the input, exactly the kept messages with their roles, plain contents and kept parts |
| `HistorySanitizer.ScrubParts` | backend/src/agent/messages.ts:218-232 | keeps exactly the replayable parts, without provider options, in order |
| `HistorySanitizer.StripVolatileHistoryParts` | backend/src/agent/messages.ts:207-239 | computes the scrub: at increasing places every message that is plain or has a replayable part, with its role and, without provider options, exactly its text, image, file, call and result parts |
| `SourceScanner.Scan` | backend/src/lib/custom-tool-source.ts:3-78 | stays within the text, never goes back, and short of the end of the text stops only one past a semicolon |
| `SourceScanner.WalkString` | backend/src/lib/custom-tool-source.ts:14-56 | a string with escapes, of any of the three quotes, is walked over as a whole without changing depth |
| `SourceScanner.WalkComment` | backend/src/lib/custom-tool-source.ts:70-73 | a line comment outside brackets is walked over whatever it contains |
| `SourceScanner.Walk` | backend/src/lib/custom-tool-source.ts:10-75 | any printed expression is walked over, ending at the depth and mode it began with |
| `SourceScanner.ScanStopsAtSemicolon` | backend/src/lib/custom-tool-source.ts:3-78 | for every prefix, grammatical expression and rest, the scan from the end of the prefix stops exactly one past the semicolon after the expression |
| `SourceScanner.Read` | backend/src/lib/custom-tool-source.ts:10-75 | whatever text the scanner walked over to a semicolon was a printed token list, with the open brackets accounted for |
| `SourceScanner.StopsExactlyAfterExpressions` | backend/src/lib/custom-tool-source.ts:3-78 | the scan ends at a semicolon without ever closing more than was opened if and only if it stood before a printed expression and its semicolon |
| `SourceScanner.ScanTokens` | backend/src/lib/custom-tool-source.ts:10-75 | every flat token list is walked over, from whatever depth to whatever depth, also below zero |
| `SourceScanner.ReadTokens` | backend/src/lib/custom-tool-source.ts:10-77 | every text is read as tokens up to a semicolon at depth zero, or the scan runs to its end |
| `SourceScanner.ScanExactly` | backend/src/lib/custom-tool-source.ts:3-78 | for every text: one past the semicolon when tokens that lead to depth zero and a semicolon stand there, the end of the text when none do |
| `SourceScanner.ScanRunsOut` | backend/src/lib/custom-tool-source.ts:59-77 | a text that ends before the statement does, in open or over-closed groups, inside a string or inside a comment, is scanned to its end |
| `SourceScanner.ExpressionRunsOut` | backend/src/lib/custom-tool-source.ts:59-77 | a printed expression that the text ends after is scanned to the end, whatever semicolons its brackets hold |
| `SourceScanner.ScanExpressionEnd` | backend/src/lib/custom-tool-source.ts:3-78 | the loop over index, depth and three flags, never two flags on, ends although escapes jump two characters; it answers one past the semicolon when tokens that lead to depth zero and a semicolon stand at the start, and the length of the text when none do |
| `ToolSource.StripLegacyExport` | backend/src/lib/custom-tool-source.ts:80-88 | nothing changes without the marker or an equals sign after it; otherwise all goes from the first marker to the end of the statement after the first such sign, or of the text when that statement never ends, and the front is trimmed |
| `ToolSource.StripLegacyToolExports` | backend/src/lib/custom-tool-source.ts:90-97 | strips the three names one after the other, each as told for one export, and trims |
| `ToolSource.StripOne` | backend/src/lib/custom-tool-source.ts:80-88 | with its marker first found at a place, one step removes exactly the printed export standing there |
| `ToolSource.NoStraddle` | backend/src/lib/custom-tool-source.ts:81-82 | no marker can straddle the cut left by a removed export |
| `ToolSource.CutMarkers` | backend/src/lib/custom-tool-source.ts:80-88 | cutting an export out leaves its own marker nowhere and creates no other |
| `ToolSource.StripStep` | backend/src/lib/custom-tool-source.ts:80-88 | one step over a layout of exports removes its export, keeps the others and the trimmed body |
| `ToolSource.StripReturnsBody` | backend/src/lib/custom-tool-source.ts:90-97 | for any selection and order of the legacy exports before a body, with no marker elsewhere, what is returned is exactly the trimmed body |
| `ToolSource.WithoutExactly` | backend/src/lib/custom-tool-source.ts:80-88 | one step told from the text alone: by where the marker, the equals sign and the end of the statement first occur |
| `ToolSource.StripUnended` | backend/src/lib/custom-tool-source.ts:80-88 | an export whose statement never ends takes the rest of the text with it |
| `ToolSource.StripAllUnended` | backend/src/lib/custom-tool-source.ts:90-97 | a text with one legacy export and no semicolon that ends it strips to the trimmed text before it |
| `JsString.IndexOfExactly` | backend/src/lib/custom-tool-source.ts:82-84 | the search gives the first place from the start on where the pattern occurs, or none when it occurs nowhere |
| `MessageDedupe.SortLaws` | whatsapp/src/message-dedupe.ts:41 | the sort is ascending in time and keeps the entries |
| `MessageDedupe.NewestSortsLast` | whatsapp/src/message-dedupe.ts:41 | the sort is stable: the newest entry, set last, stays last among equals |
| `MessageDedupe.SweepBounds` | whatsapp/src/message-dedupe.ts:35-46 | after a sweep at most 100,000 entries remain, none older than seven days, none changed |
| `MessageDedupe.EvictedByFull` | whatsapp/src/message-dedupe.ts:40-45 | an evicted key leaves 100,000 other keys that are no older |
| `MessageDedupe.LostInSweep` | whatsapp/src/message-dedupe.ts:35-46 | a key lost in a sweep was over seven days old or pushed out by a full map of keys no older |
| `MessageDedupe.StepSound` | whatsapp/src/message-dedupe.ts:14-46 | every step keeps one entry per key, the cap, and no entry from the future |
| `MessageDedupe.MarkSurvives` | whatsapp/src/message-dedupe.ts:25-46 | the key just marked survives its own sweep, with its time |
| `MessageDedupe.HeldOrForgettable` | whatsapp/src/message-dedupe.ts:18-46 | from a mark on, at every step the key is held with a time no earlier, or one of the two reasons to forget it has occurred |
| `MessageDedupe.ForgettingBound` | whatsapp/src/message-dedupe.ts:18-46 | if a marked key is acquired again, its mark is over seven days old, or some sweep since held 100,000 other keys marked no earlier |
| `MessageDedupe.DeliveredIsLastMark` | whatsapp/src/message-dedupe.ts:25-46 | over any run a key is held as delivered only with the time of its last mark |
| `MessageDedupe.InFlightExactly` | whatsapp/src/message-dedupe.ts:18-33 | over any run a key is in flight exactly from an acquire that found it undelivered until its mark or release |
| `MessageDedupe.FirstAcquireSucceeds` | whatsapp/src/message-dedupe.ts:18-23 | the first acquire of a key puts it in flight |
| `MessageDedupe.MessageDedupeTracker.constructor` | whatsapp/src/message-dedupe.ts:14-16 | a tracker starts with nothing delivered and nothing in flight |
| `MessageDedupe.MessageDedupeTracker.TryAcquire` | whatsapp/src/message-dedupe.ts:18-23 | the delivered map is swept; exactly a key neither in flight nor still delivered is accepted, and then it alone is added to those in flight |
| `MessageDedupe.MessageDedupeTracker.MarkDelivered` | whatsapp/src/message-dedupe.ts:25-29 | the key leaves flight, is delivered now, and the map is swept |
| `MessageDedupe.MessageDedupeTracker.ReleaseKey` | whatsapp/src/message-dedupe.ts:31-33 | the key leaves flight and nothing else changes |
| `MessageDedupe.MessageDedupeTracker.SweepExpired` | whatsapp/src/message-dedupe.ts:35-46 | the two loops compute the sweep: drop what is too old, then the oldest above the cap |
| `MessageDedupe.MessageDedupeTracker.DeleteOlderThan` | whatsapp/src/message-dedupe.ts:36-39 | exactly the entries before the cutoff go |
| `OrderedMap.DeleteUnless` | whatsapp/src/message-dedupe.ts:37-39 | visiting a map in insertion order and deleting on the way leaves exactly the entries that pass the test, in order |
| `MessageSession.KeysDiffer` | whatsapp/src/message-dedupe.ts:1-4 | two messages share a de-duplication key exactly when direction and id are equal |
| `MessageSession.ArriveOwned` | whatsapp/src/baileys-session.ts:303-315 | a new call keeps in-flight and delivered keys disjoint and one owner for each in-flight key, also when it is suppressed at once |
| `MessageSession.StepInv` | whatsapp/src/baileys-session.ts:299-372 | every step of every interleaving keeps disjointness, single ownership and the tracker's invariant |
| `MessageSession.RunInv` | whatsapp/src/baileys-session.ts:299-372 | hence they hold at every point of every run |
| `MessageSession.EveryAcquireEndsOnce` | whatsapp/src/baileys-session.ts:307-357 | each accepted acquire ends in exactly one mark or release, or its call is still pending |
| `MessageSession.SettledStep` | whatsapp/src/baileys-session.ts:307-357 | a key already remembered or being delivered stays so unless its owner fails or a sweep drops it |
| `MessageSession.UnsettlingReason` | whatsapp/src/baileys-session.ts:348-352 | the only ways out: the owner's failure, an age over seven days, or a full map of keys no older |
| `MessageSession.PostedOnlyAfterUnsettled` | whatsapp/src/baileys-session.ts:307-349 | a settled key is handed to delivery again only after something unsettled it |
| `MessageSession.NoWebhookTwice` | whatsapp/src/baileys-session.ts:299-357 | a message is handed over twice only if in between its handler failed or the tracker had a reason to forget it |
| `MessageSession.SelfSentNeverEchoes` | whatsapp/src/baileys-session.ts:310-315 | a message remembered as self-sent when its mirror arrives produces no webhook until the tracker has a reason to forget it |
| `MessageSession.FirstArrivalIsHandled` | whatsapp/src/baileys-session.ts:303-342 | the first arrival of a message is pending after its step, unless it is the mirror of a self-sent one |
| `MessageSession.ReplayIsHandled` | whatsapp/src/baileys-session.ts:303-357 | over any run, when the owner of a message fails, the next arrival of that message is pending again, unless it is the mirror of a self-sent one |
| `MessageSession.UnknownStep` | whatsapp/src/baileys-session.ts:303-372 | a key neither in flight nor delivered stays so until a message with it arrives |
| `MessageSession.RememberLaws` | whatsapp/src/baileys-session.ts:366-372 | after remembering an id it is held with the time now, and of the others exactly those no older than five minutes |
| `MessageSession.BaileysSession.constructor` | whatsapp/src/baileys-session.ts:71-72 | a session starts with a new tracker, nothing self-sent and no call |
| `MessageSession.BaileysSession.OnMessage` | whatsapp/src/baileys-session.ts:299-316 | the handler up to its first await: a message in flight or delivered changes only the sweep, a self-sent mirror is forgotten and delivered at once, any other is in flight with its call pending |
| `MessageSession.BaileysSession.OnEventBuilt` | whatsapp/src/baileys-session.ts:325-348 | a waiting call hands over its key and goes on to delivery, or, not ingestable, is done and its key delivered; any other call changes nothing |
| `MessageSession.BaileysSession.OnDelivered` | whatsapp/src/baileys-session.ts:348-349 | a call in delivery is done and its key delivered; any other changes nothing |
| `MessageSession.BaileysSession.OnFailed` | whatsapp/src/baileys-session.ts:350-352 | the key of a pending call is in flight no more, nothing becomes delivered, and the call is done |
| `MessageSession.BaileysSession.RememberSelfSent` | whatsapp/src/baileys-session.ts:366-372 | the id is remembered now, and ids older than five minutes are dropped |
| `RateLimit.EvictDownLaws` | backend/src/middleware/rate-limit.ts:70-81 | the eviction loop ends with at most 10,000 entries, and what it drops resets no later than anything it keeps |
| `RateLimit.EvictionBound` | backend/src/middleware/rate-limit.ts:62-82 | capacity eviction keeps at most 10,000 entries, and drops a live one only when live entries alone exceed that, never one that resets later than a kept one |
| `RateLimit.AdmittedWithinAllowance` | backend/src/middleware/rate-limit.ts:91-112 | from any point of a run, the admissions still to come in an interval are bounded by the store's current window |
| `RateLimit.TwiceTheLimit` | backend/src/middleware/rate-limit.ts:91-112 | for a key never evicted, any closed interval of one window length admits at most twice the limit |
| `RateLimit.WindowIsOpeners` | backend/src/middleware/rate-limit.ts:93-101 | the live window in the store is that of the last request that opened one, with all its requests counted |
| `RateLimit.FirstOfWindow` | backend/src/middleware/rate-limit.ts:95-112 | a request is admitted exactly when it is among the first `limit` of its window, is told how many are left of them, and when the window that its opener began ends |
| `RateLimit.KeyIsOwnExactly` | backend/src/middleware/rate-limit.ts:58-60 | no other prefix, address and path share a key with these if and only if none of the three holds a bar |
| `RateLimit.OthersInvisible` | backend/src/middleware/rate-limit.ts:84-114 | over any run the window of a key never evicted is the one it would have alone |
| `RateLimit.AnswersAsAlone` | backend/src/middleware/rate-limit.ts:84-114 | so every answer to it is the one it would get if no other client made requests |
| `RateLimit.StepLive` | backend/src/middleware/rate-limit.ts:91-123 | the live windows after a step are determined by the live windows before it |
| `RateLimit.ExpiredInvisible` | backend/src/middleware/rate-limit.ts:91-123 | stores that differ only in expired entries answer every later run alike while live entries fit |
| `RateLimit.CleanupInvisible` | backend/src/middleware/rate-limit.ts:116-123 | running the periodic clean-up first changes no later answer |
| `RateLimit.RequestLimiter.constructor` | backend/src/middleware/rate-limit.ts:24 | the store starts empty |
| `RateLimit.RequestLimiter.RateLimit` | backend/src/middleware/rate-limit.ts:84-114 | the key of prefix, client and path is counted and answered with admission, remaining and reset time |
| `RateLimit.RequestLimiter.Count` | backend/src/middleware/rate-limit.ts:91-112 | opens a window when none is live, evicts, increments, and answers |
| `RateLimit.RequestLimiter.EvictIfNeeded` | backend/src/middleware/rate-limit.ts:63-82 | above the cap: drop the expired, then the earliest reset until the cap holds |
| `RateLimit.RequestLimiter.FindOldest` | backend/src/middleware/rate-limit.ts:71-78 | the scan finds the first entry with the least reset time |
| `RateLimit.RequestLimiter.DeleteExpired` | backend/src/middleware/rate-limit.ts:66-68 | exactly the expired entries go |
| `RateLimit.RequestLimiter.CleanupExpiredEntries` | backend/src/middleware/rate-limit.ts:116-123 | the clean-up drops exactly the expired entries |
| `LoginThrottle.RecordLaws` | backend/src/middleware/login-attempts.ts:67-85 | recording never evicts the key it records, keeps 10,000 entries at most, changes no other key it keeps, and starts, continues or blocks the key's window |
| `LoginThrottle.CheckLaws` | backend/src/middleware/login-attempts.ts:44-65 | asking deletes the key's own entry only when it neither blocks nor counts, and touches no other |
| `LoginThrottle.OwnStep` | backend/src/routes/auth.ts:174-195 | one attempt moves the store as it moves the reference grouping of failures into windows |
| `LoginThrottle.StoreFollowsGroups` | backend/src/middleware/login-attempts.ts:44-85 | over every run the store acts as the reference windows say |
| `LoginThrottle.BlockedExactly` | backend/src/middleware/login-attempts.ts:44-85 | a key not evicted is refused exactly from the tenth failure of a window until fifteen minutes after it; the retry value is the least whole number of seconds that reaches the end |
| `LoginThrottle.RecordedWithinAllowance` | backend/src/middleware/login-attempts.ts:67-85 | from any point of a run, the failures still to be recorded in an interval are bounded by the current window |
| `LoginThrottle.AtMostEighteen` | backend/src/middleware/login-attempts.ts:44-85 | with no successful login and no eviction, any half-open fifteen minutes hold at most 18 recorded failures |
| `LoginThrottle.EighteenReached` | backend/src/middleware/login-attempts.ts:44-85 | a run that records 18 failures in fifteen minutes, so the bound is exact |
| `LoginThrottle.KeyIsOwnExactly` | backend/src/middleware/login-attempts.ts:30-32 | no other address and account share a key with these if and only if neither holds a bar |
| `LoginThrottle.OldestGoes` | backend/src/middleware/login-attempts.ts:35-42 | recording pushes a key out exactly when the map is full, the recorded key is new to it, and the key is its oldest |
| `LoginThrottle.OthersInvisible` | backend/src/middleware/login-attempts.ts:44-65 | over any run the block of a key never evicted is the one it would meet alone |
| `LoginThrottle.LoginAttempts.constructor` | backend/src/middleware/login-attempts.ts:28 | no attempts at first |
| `LoginThrottle.LoginAttempts.GetLoginBlock` | backend/src/middleware/login-attempts.ts:44-65 | the answer and the state after asking, in every branch |
| `LoginThrottle.LoginAttempts.RecordLoginFailure` | backend/src/middleware/login-attempts.ts:67-85 | the state after a failure: a new window and eviction, or one more failure and perhaps a block |
| `LoginThrottle.LoginAttempts.ClearLoginFailures` | backend/src/middleware/login-attempts.ts:87-89 | the entry of the pair is gone and nothing else changes |
| `LoginThrottle.LoginAttempts.EvictIfNeeded` | backend/src/middleware/login-attempts.ts:34-42 | above the cap exactly the oldest entries in insertion order go |
| `MessagePaging.ClampInRange` | backend/src/repositories/conversations.ts:708-711 | a page size is always between one and the maximum, and a whole number in range is used as it is |
| `MessagePaging.ClampExactly` | backend/src/repositories/conversations.ts:708-711 | the default for a number that is not finite or below one, otherwise its whole part or the maximum if that is less |
| `MessagePaging.VisibleLaws` | backend/src/repositories/conversations.ts:742-750 | selected are exactly the rows of this workspace and conversation without a status or with a dry run's |
| `MessagePaging.OfSessionLaws` | backend/src/repositories/agent-messages.ts:104-114 | selected are exactly the rows of this workspace and session |
| `MessagePaging.ListingIsSorted` | backend/src/repositories/conversations.ts:747 | the reference listing holds the same rows, strictly ascending in time and id |
| `MessagePaging.OrderBefore` | backend/src/repositories/conversations.ts:795-804 | ordering the rows before a cursor is cutting the ordered list at the cursor |
| `MessagePaging.FetchIsChunk` | backend/src/repositories/conversations.ts:747-756 | a page is the newest rows of its selection turned around, and the flag tells exactly whether rows remain |
| `MessagePaging.NextSelection` | backend/src/repositories/conversations.ts:795-809 | the cursor of a full page selects exactly the rows after it, and fewer of them |
| `MessagePaging.PagingIsListing` | backend/src/repositories/conversations.ts:718-820 | following the cursor from the latest page yields every row exactly once in order, in finitely many pages |
| `MessagePaging.LastPageExactly` | backend/src/repositories/conversations.ts:808-813 | the flag is false on the last page and on no other, and every earlier page is full |
| `MessagePaging.FollowSteps` | backend/src/repositories/conversations.ts:765-820 | each later page is the fetch with the cursor of the oldest row of the page before |
| `MessagePaging.ArrivalsChangeNoPage` | backend/src/repositories/conversations.ts:795-805 | rows arriving between fetches, each batch no older than the oldest row of the page fetched last, change no later page, and the reader still gets the list of the first fetch |
| `MessagePaging.LateRowSeen` | backend/src/repositories/conversations.ts:795-805 | a row in the table older than the cursor, but not in that list, changes some later page |
| `MessagePaging.ArrivalsChangeNoPageExactly` | backend/src/repositories/conversations.ts:795-805 | for arrivals with new ids, the pages are those of the list at the first fetch if and only if no batch holds a row older than the cursor in force when it arrives |
| `MessagePaging.CutSelects` | backend/src/repositories/conversations.ts:774-801 | a cursor cut to its millisecond passes over exactly the older rows of that millisecond that are not at its start with a smaller id |
| `MessagePaging.CutPagesPartition` | backend/src/repositories/conversations.ts:604-820 | with cut cursors every row is on exactly one page or skipped at exactly one page end |
| `MessagePaging.CutPagesAscend` | backend/src/repositories/conversations.ts:604-820 | with cut cursors the pages are still in strictly ascending order |
| `MessagePaging.SkipsNext` | backend/src/repositories/conversations.ts:795-804 | along the sorted list, a cut cursor that skips any later row skips the next one |
| `MessagePaging.LostNothingExactly` | backend/src/repositories/conversations.ts:774-804 | from any cursor on, nothing is skipped at a page end if and only if the rest of the sorted list falls into whole pages |
| `MessagePaging.CutPagingExactly` | backend/src/repositories/conversations.ts:604-820 | paging with cut cursors gives the plain sorted list if and only if that list, counted off in pages of this size from the newest row, has no page ending at a row whose millisecond the next row shares, unless that one stands at its start with a smaller id |
| `MessagePaging.FollowCutSteps` | backend/src/repositories/conversations.ts:765-820 | each later page is the fetch with the cut cursor of the page before, and the flag is false on the last page alone |
| `MessagePaging.SplitMillisecondLoses` | backend/src/repositories/conversations.ts:774-801 | two rows a quarter of a millisecond apart, of which pages of one show only the newer |
| `MessagePaging.WholeMillisecondsExact` | backend/src/repositories/conversations.ts:774-801 | rows stored at whole milliseconds are paged as with exact cursors |
| `MessagePaging.ConversationPages` | backend/src/repositories/conversations.ts:718-820 | for every table and any requested size, the two conversation readers chained by cursors with the stored time list exactly the visible messages in order |
| `MessagePaging.ConversationCutPages` | backend/src/repositories/conversations.ts:604-820 | the two conversation readers, chained by the cursors they really get, list exactly the visible messages in order if and only if these fall into whole pages of the clamped size |
| `MessagePaging.AgentPages` | backend/src/repositories/agent-messages.ts:78-129 | the agent reader, with and without a cursor of the stored time, lists exactly the session's messages in order |
| `MessagePaging.AgentCutPages` | backend/src/repositories/agent-messages.ts:28-129 | the agent reader, chained by the cursors it really gets, lists exactly the session's messages in order if and only if these fall into whole pages of the clamped size |
| `ToolFailures.BatchesConcatenate` | backend/src/agent/tool-failures.ts:70-74 | observing two batches equals observing their concatenation |
| `ToolFailures.FailingIsLastVerdict` | backend/src/agent/tool-failures.ts:9-68 | a key is held, with its detail, exactly when its last decisive result failed |
| `ToolFailures.OrderStep` | backend/src/agent/tool-failures.ts:19-68 | a further failure keeps the order, a new one goes last, a success takes its key out |
| `ToolFailures.FailingInStreakOrder` | backend/src/agent/tool-failures.ts:15-68 | failing keys stand in the order in which their current unbroken streaks began |
| `ToolFailures.FailingExactly` | backend/src/agent/tool-failures.ts:9-82 | after any observations, nested results before their outer one: exactly the keys whose last decisive result failed, with its detail, in streak order |
| `ToolFailures.EventsAreTold` | backend/src/agent/tool-failures.ts:27-74 | the events are exactly what the places of the results tell, in order: nested results before their outer one, allowed keys or execute_code alone, strictly true or false alone |
| `ToolFailures.ObservedExactly` | backend/src/agent/tool-failures.ts:19-74 | from any start, over the results: a key is held exactly when the last place that tells of it is a failure, with its trimmed error or the fallback; keys not told of are as they were |
| `ToolFailures.ObservedInOrder` | backend/src/agent/tool-failures.ts:27-83 | the failing keys stand in the order of the places at which their unbroken streaks begin |
| `ToolFailures.CustomToolFailureTracker.constructor` | backend/src/agent/tool-failures.ts:15-17 | a tracker starts with the allowed keys and no failure |
| `ToolFailures.CustomToolFailureTracker.Note` | backend/src/agent/tool-failures.ts:42-48 | success takes the key out, failure sets it to the trimmed error or the fallback, anything else changes nothing |
| `ToolFailures.CustomToolFailureTracker.ObserveNested` | backend/src/agent/tool-failures.ts:32-49 | the nested results of allowed keys apply in order |
| `ToolFailures.CustomToolFailureTracker.ObserveOne` | backend/src/agent/tool-failures.ts:27-68 | one result applies its flattened events |
| `ToolFailures.CustomToolFailureTracker.ObserveToolResults` | backend/src/agent/tool-failures.ts:70-74 | over the results by places: the last strict verdict on a key decides, keys without one stay, and from an empty start the keys stand in the order in which their streaks begin |
| `ToolFailures.LineStands` | backend/src/agent/tool-failures.ts:76-82 | in the summary the key and detail of each failing entry stand between the lines of the entries before and after it, parted by semicolons |
| `ToolFailures.CustomToolFailureTracker.Summarize` | backend/src/agent/tool-failures.ts:76-82 | nothing exactly when nothing is failing, else the joined lines of the entries in order |
| `KnowledgeSources.UniqueCatalogItems` | backend/src/agent/skills-catalog.ts:174-186 | the loop keeps, trimmed, the first titled item of each key |
| `KnowledgeSources.UniqueKeys` | backend/src/agent/skills-catalog.ts:174-186 | no two items of the catalog share a key |
| `KnowledgeSources.EveryKeyKept` | backend/src/agent/skills-catalog.ts:174-186 | every titled item keeps an item of its key in the catalog |
| `KnowledgeSources.FirstSurvives` | backend/src/agent/reply-sources.ts:52-90 | without collisions, the first item a lookup finds is the same in the de-duplicated list, up to label trimming |
| `KnowledgeSources.FindSurvives` | backend/src/agent/reply-sources.ts:52-90 | without collisions both lookups answer alike on the raw and the de-duplicated list |
| `KnowledgeSources.CollisionHides` | backend/src/agent/skills-catalog.ts:180-181 | two items of one key with different names: the raw list finds the second by its name, no lookup in the de-duplicated one ever gives an item of that name |
| `KnowledgeSources.TransparentExactly` | backend/src/agent/skills-catalog.ts:174-186 | with named groups, de-duplication is transparent to every lookup if and only if no two items of different names share a key |
| `KnowledgeSources.ColonCollides` | backend/src/agent/skills-catalog.ts:180-181 | a catalog of two items, with a colon in a group name, whose de-duplication is not transparent |
| `KnowledgeSources.ColonFreeNoCollision` | backend/src/agent/skills-catalog.ts:180 | group names without a colon rule collisions out, whatever the labels |
| `KnowledgeSources.BuiltCatalogTransparent` | backend/src/agent/skills-catalog.ts:188-274 | a catalog built from groups with good names answers as its raw list |
| `KnowledgeSources.PushGroups` | backend/src/agent/skills-catalog.ts:195-230 | entries then the group itself, group by group, in order |
| `KnowledgeSources.PushSkills` | backend/src/agent/skills-catalog.ts:231-246 | each skill by name and by key |
| `KnowledgeSources.PushHandoffGroup` | backend/src/agent/skills-catalog.ts:248-269 | the items of one hand-off group without blank topics, and its id table |
| `KnowledgeSources.PushHandoff` | backend/src/agent/skills-catalog.ts:247-269 | all hand-off items and the whole id table, a later entry winning |
| `KnowledgeSources.BuildKnowledgeSourceCatalog` | backend/src/agent/skills-catalog.ts:188-274 | the catalog of the raw list, with its id table |
| `KnowledgeSources.ResolveAgentReplySources` | backend/src/agent/reply-sources.ts:126-167 | pushes the resolved references, the loaded skills and the hand-off in this order, and no two results share a key |
| `KnowledgeSources.FirstOfEachKeyKept` | backend/src/agent/reply-sources.ts:118-167 | of all requested sources exactly the first of each key is kept, in the order requested |
| `KnowledgeSources.KeptAreDistinct` | backend/src/agent/reply-sources.ts:118-124 | kept sources have distinct keys, and some are kept exactly when some are requested |
| `KnowledgeSources.PushLaws` | backend/src/agent/reply-sources.ts:118-124 | a push leaves a source of its key and loses no key |
| `KnowledgeSources.HandoffLabelNonBlank` | backend/src/agent/reply-sources.ts:169-180 | a called hand-off always has a title that is not blank |
| `KnowledgeSources.ResolveFromStructuredOutput` | backend/src/agent/agent.ts:485-510 | resolves the references, the loaded skills and the hand-off's label; regeneration is requested exactly when knowledge was used and nothing resolved, so never with a named loaded skill or a called hand-off |
| `KnowledgePlaces.FindItemExactly` | backend/src/agent/reply-sources.ts:52-72 | which item a lookup gives: the first of the title in the named group, else the first in any group, else the first; none only when no item has the title |
| `KnowledgePlaces.FindGroupExactly` | backend/src/agent/reply-sources.ts:75-90 | the group lookup gives the first item outside any group with this title, and none only when there is none |
| `KnowledgePlaces.ReferenceExactly` | backend/src/agent/reply-sources.ts:134-142 | an item of the title wins over the named group, and that over a group of the title; nothing is given only when none of the three is there |
| `KnowledgePlaces.RequestedExactly` | backend/src/agent/reply-sources.ts:126-167 | what is requested, by places: one source for each reference that gives one, for each skill name that is not blank, and for the hand-off, in this order and with the fields of their items |
| `KnowledgePlaces.HandoffLabelExactly` | backend/src/agent/reply-sources.ts:169-180 | no label unless called; the trimmed title of the topic with this id, else "Human handoff" |
| `KnowledgePlaces.UniqueExactly` | backend/src/agent/skills-catalog.ts:174-186 | the de-duplicated list holds, in order and changed only by trimming the title, exactly the first titled item of each key |
| `KnowledgePlaces.CatalogExactly` | backend/src/agent/skills-catalog.ts:188-274 | where every entry, group, skill and topic stands in the raw list, which of them the catalog keeps, and which topic each id of the table gives |
| `StorageAccounting.StepAmounts` | backend/src/repositories/workspace-asset-groups.ts:778-908 | what each step adds to, takes from and returns to the counter, against the bytes it stores, reserves and frees |
| `StorageAccounting.BalanceKeptExactly` | backend/src/repositories/workspace-storage.ts:96-115 | a step keeps counter and bytes equal if and only if it returns what leaves, or the clamp at zero hides the surplus |
| `StorageAccounting.ExactExactly` | backend/src/repositories/workspace-asset-groups.ts:826-906 | a step returns what leaves if and only if it is no exception after the insert, and a delete still finds what it read |
| `StorageAccounting.ConservedStep` | backend/src/repositories/workspace-asset-groups.ts:778-1065 | from a right counter, a step keeps it right without the clamp biting if and only if it is exact |
| `StorageAccounting.BytesConserved` | backend/src/repositories/workspace-asset-groups.ts:778-1065 | over every run, however interleaved, the counter equals stored plus reserved bytes after every step and the clamp never bites if and only if no exception followed an insert and every delete committed still found the bytes it read |
| `StorageAccounting.OrderlyBytesConserved` | backend/src/repositories/workspace-asset-groups.ts:342-400 | so it does whenever deletes commit right after their read and no exception follows an insert |
| `StorageAccounting.PendingUpToDate` | backend/src/repositories/workspace-asset-groups.ts:1012-1065 | in an orderly run a pending delete still holds the bytes it read |
| `StorageAccounting.LateThrowUnbalances` | backend/src/repositories/workspace-asset-groups.ts:890-906 | an exception after the row insert returns bytes that stay stored |
| `StorageAccounting.LateThrowRun` | backend/src/repositories/workspace-asset-groups.ts:890-906 | a run of three steps from the empty workspace that leaves the counter wrong by a late exception |
| `StorageAccounting.DoubleDeleteUnbalances` | backend/src/repositories/workspace-asset-groups.ts:1018-1055 | two deletes that both read one asset return its bytes twice |
| `StorageAccounting.DoubleDeleteRun` | backend/src/repositories/workspace-asset-groups.ts:1018-1055 | a run of ten steps from the empty workspace that leaves the counter wrong by a double delete |
| `StorageAccounting.UploadsEndOnce` | backend/src/repositories/workspace-asset-groups.ts:822-907 | each started upload leaves by exactly one exit, or is still running |
| `StorageAccounting.NextExactly` | backend/src/repositories/workspace-asset-groups.ts:778-1065 | what each step does, told by places of the rows, uploads and deletes, with the counter after it |
| `StorageAccounting.GroupChosen` | backend/src/repositories/workspace-asset-groups.ts:342-375 | the rows outside a group are exactly its left rows, in order and as often as they occur, and the same for those in it |
| `StorageAccounting.Workspace.constructor` | backend/src/db/schema/index.ts:64 | nothing stored and nothing charged |
| `StorageAccounting.Workspace.ReserveWorkspaceStorage` | backend/src/repositories/workspace-storage.ts:70-94 | an empty file is refused, any other is added to the counter |
| `StorageAccounting.Workspace.ReleaseWorkspaceStorage` | backend/src/repositories/workspace-storage.ts:96-115 | the counter goes down, stopping at zero |
| `StorageAccounting.Workspace.BeginUpload` | backend/src/repositories/workspace-asset-groups.ts:778-820 | a valid file that is not empty reserves its bytes and runs, a document runs without, and nothing else starts |
| `StorageAccounting.Workspace.FailUpload` | backend/src/repositories/workspace-asset-groups.ts:826-907 | the four failing exits return the reservation and end the upload |
| `StorageAccounting.Workspace.InsertRow` | backend/src/repositories/workspace-asset-groups.ts:849-879 | the row carries the uploaded bytes, and the reservation becomes storage |
| `StorageAccounting.Workspace.FinishUpload` | backend/src/repositories/workspace-asset-groups.ts:890-897 | success ends the upload and charges nothing more |
| `StorageAccounting.Workspace.DeleteAgentAssetFromGroup` | backend/src/repositories/workspace-asset-groups.ts:1012-1065 | the first row of this id in this group is cut out, whatever its charge, and the charge goes back; without one nothing changes |
| `StorageAccounting.Workspace.DeleteWorkspaceAssetGroup` | backend/src/repositories/workspace-asset-groups.ts:342-400 | what is left is exactly the rows of other groups, in order and as often as they occur, and the bytes that go are released |
| `StorageAccounting.Workspace.SumGroup` | backend/src/repositories/workspace-asset-groups.ts:362-364 | the filter and reduce give exactly the charged bytes of the group |
| `LidMapping.LearnLinked` | whatsapp/src/jid.ts:88-106 | learning keeps every forward value a phone id listed in reverse and every reverse value a LID listed forward |
| `LidMapping.LearnAllLast` | whatsapp/src/jid.ts:88-106 | after any pairs the forward map holds the last learnable phone id of each LID, else what it held |
| `LidMapping.LearnKeepsInverseExactly` | whatsapp/src/jid.ts:100-105 | from inverse maps, a learn leaves them inverse if and only if it is void, repeats a pair, or is new on both sides |
| `LidMapping.InverseThroughoutExactly` | whatsapp/src/jid.ts:88-106 | since a connection was cleared, its reverse map was the inverse of the forward map after every pair if and only if no LID was tried with two phones and no phone with two LIDs |
| `LidMapping.RunInverse` | whatsapp/src/jid.ts:34-192 | in any run of operations, a connection's maps were inverse after every pair tried since its last clearing if and only if those pairs are one-to-one; the maps it has now are inverse exactly when those pairs alone give inverse maps |
| `LidMapping.ReverseGoesStale` | whatsapp/src/jid.ts:100-105 | the two ways to lose it: a LID that moves leaves its old phone's entry behind, and learning an equal pair again does not take a shared phone back |
| `LidMapping.ForwardIsLastLearned` | whatsapp/src/jid.ts:34-192 | over every run, each connection holds for every LID the phone id of the last learnable pair since it was cleared, the maps stay linked, and an operation changes no other connection |
| `LidMapping.MemoryKnows` | whatsapp/src/jid.ts:119-136 | the synchronous lookup of a learned LID gives its phone id |
| `LidMapping.LearnedIsResolved` | whatsapp/src/lid-resolve.ts:65-82 | a learned LID is resolved to a phone id by message key or memory before the signal store is asked |
| `LidMapping.LearnedStays` | whatsapp/src/jid.ts:34-192 | whatever else runs, only clearing its connection makes a learned LID forgotten |
| `LidMapping.LearnedNeverUnresolved` | whatsapp/src/lid-resolve.ts:65-106 | over every run: a LID learned at one step, its connection not cleared since, never comes back unresolved from a resolution begun later |
| `LidMapping.UnresolvedExactly` | whatsapp/src/lid-resolve.ts:65-106 | a LID comes back unresolved if and only if message key, learned map and contacts give no phone id when the resolution begins, the signal store gives none, and the contacts and the learned map as they are after it give none |
| `LidSources.LearnAllExactly` | whatsapp/src/jid.ts:89-106 | of a list of pairs the last that holds a LID beside a phone id gives its phone id, and of other LIDs nothing is learned |
| `LidSources.KeyExactly` | whatsapp/src/jid.ts:150-161 | a message key teaches every LID it holds beside a phone id in one of its six pairs, with a phone id that stands beside it, and no other |
| `LidSources.ContactExactly` | whatsapp/src/jid.ts:163-192 | a contact teaches its LID the phone id among its own ids, else its number, indexes the number under its LID, and teaches nothing else |
| `LidSources.ResolvedExactly` | whatsapp/src/lid-resolve.ts:65-106 | the answer to a LID: the phone id beside it in the key, else memory's, else the signal store's, else the contacts' as they are then, else the LID itself |
| `LidSources.OthersResolveToThemselves` | whatsapp/src/lid-resolve.ts:71-73 | an id that is no LID is its own answer |
| `LidMapping.LidStore.constructor` | whatsapp/src/jid.ts:23 | no connection knows anything at first |
| `LidMapping.LidStore.LearnPair` | whatsapp/src/jid.ts:89-106 | one pair is learned for its connection; an equal pair changes no map |
| `LidMapping.LidStore.LearnPairs` | whatsapp/src/jid.ts:155-160 | pairs are learned in order |
| `LidMapping.LidStore.LearnFromMessageKey` | whatsapp/src/jid.ts:149-161 | the six pairs of a message key are tried in order |
| `LidMapping.LidStore.LearnFromContact` | whatsapp/src/jid.ts:163-192 | a contact is indexed by its LID, and its pairs are learned |
| `LidMapping.LidStore.ClearConnectionLidState` | whatsapp/src/jid.ts:34-36 | the connection is forgotten and no other |
| `LidMapping.LidStore.LearnEarly` | whatsapp/src/lid-resolve.ts:20-78 | the key's pairs are learned, then the pair that names the LID itself, whose phone id is found |
| `LidMapping.LidStore.ResolveUntilAwait` | whatsapp/src/lid-resolve.ts:71-81 | the answer of the pipeline before the signal store is asked, if it has one, and what it learned |
| `LidMapping.LidStore.ResolveAfterAwait` | whatsapp/src/lid-resolve.ts:83-105 | the answer from the signal store, which is learned, or from the contacts as they are then |
| `LidMapping.LidStore.Apply` | whatsapp/src/jid.ts:34-192 | any operation changes the store as one step of a run |
| `LidMapping.LidStore.ResolveIdentifierToPn` | whatsapp/src/lid-resolve.ts:65-106 | the answer of the pipeline and the store afterwards, whatever other tasks do to the store while the signal store is asked |

## Left out

- The LLM run, prompts, HTTP routes and middleware plumbing, `clientIp`, logging, S3, SMTP, JWT and encryption: calls into other services and libraries.
- Session start, stop and socket events of the WhatsApp service: they depend on the timing of the Baileys library.
- Other repositories (contacts, leads, evals, workspaces, team, invites) and the row converters: single queries that would only add easy members.
- `reconcileWorkspaceStorageUsed`, import jobs, eval ticking and inbound debounce: a different accounting, or driven by services that are not part of this model.
- `normalizeRequiredEnvNames`, the catalog's text formatters and message hydration: easy string and join work.
- Time is a parameter everywhere; runs assume a clock that does not go back. Database errors (an empty page, a logged counter error) are not modelled.
- AgentHistory: message-level fields besides role and content; content that is not an array is one opaque value, and null or throwing parts are not modelled. Nothing is claimed about results held in messages of other roles.
- SnapshotRecovery, SessionRecovery: steps hold assistant and tool messages whose calls and results have non-empty string ids, as the runtime stores them, and inbound messages hold no tool or reasoning part.
- ScanStopsAtSemicolon: regular-expression literals are not a token of the grammar, a template literal is one string without nested interpolation, and a comment stands only outside brackets, where the scanner recognises it.
- StripReturnsBody: an annotation holds no equals sign, because the source looks for the first one after the marker; a marker that is a prefix of a longer name counts as that marker.
- JsString.Trim: white space is the set listed there, compared character by character.
- MessageSession: "handed over" means given to `deliverEvent`, which gives up silently after four tries; what it posts is not part of this model. A thrown error is a step of its own.
- SelfSentNeverEchoes: about mirrors not already in flight when they arrive; an entry of the self-sent map that has passed its five minutes but is still held counts as held, as in the source.
- TwiceTheLimit: all requests of one key use one window and one limit, as one mounted limiter does; keys of two limiters with the same prefix are not mixed.
- RateLimit: an entry object is shared with the map and incremented in place; here the incremented window is written back under its key. When the request's own new entry is evicted the source increments an object no longer in the map, which the model follows.
- ExpiredInvisible: stated while live entries fit the cap; capacity eviction itself is described by `EvictionBound`.
- AtMostEighteen: attempts are sequential, as each failure follows an unblocked check at the same instant; a failure recorded by a request already past its check when the block began starts a fresh window in the source.
- ConversationPages: ids are unique and compared as 128-bit numbers, and the cursor carries the time as stored; `ConversationCutPages` drops the last assumption.
- AgentPages: the same two assumptions; `AgentCutPages` drops the last.
- ArrivalsChangeNoPageExactly: batches join the table whole, between fetches; a row that is deleted or edited meanwhile is not modelled.
- KnowledgeSources: `toLowerCase` is any function that lowers ASCII text as usual, leaves something of every text and makes no colon; inherited properties of the JavaScript object behind `handoffByEntryId` are not modelled.
- TransparentExactly: a group name that is present is not blank; for other lists `FindSurvives` gives the half that still holds.
- BytesConserved: deleting rows and returning their bytes is one step.
- StorageAccounting: the rows are those of one workspace; the storage bucket, the media counter, and failures of the counter update itself, among them an overflow of the 32-bit column, are not modelled.
- LidMapping: `normalizeJid` is any idempotent function that keeps LIDs apart from other ids; `hints` of `resolveToPn` are not passed, and an empty per-connection entry created by a mere lookup is not told from an absent one.
